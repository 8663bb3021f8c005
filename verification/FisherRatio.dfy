/** When the cumulative exploration ratio D / L stays within 1, whatever the metric. */
module FisherRatio {
  import opened Wrappers
  import opened FisherTrajectory
  import opened FisherRuns

  // ----- displacement against travel -----

  function ActivationAt(windows: seq<Window>, j: nat): Vector
    requires j < |windows|
  {
    Activation(windows[j].counts)
  }

  /** The first window with enough messages. */
  function AnchorIndex(windows: seq<Window>): (a: nat)
    requires windows != []
    ensures a < |windows|
  {
    FirstConfident(FullSeries(windows), 0)
  }

  /** What the quiet windows after `a` travelled without being added to the length. */
  function LostTravel(dist: (Vector, Vector) -> real, windows: seq<Window>, a: nat, i: nat): real
    requires i < |windows|
    decreases i
  {
    if i <= a then 0.0 else
      LostTravel(dist, windows, a, i - 1) +
      if Sum(windows[i].counts) >= N_MIN then 0.0 else dist(ActivationAt(windows, i - 1), ActivationAt(windows, i))
  }

  lemma {:induction false} StraightWithinTravel(dist: (Vector, Vector) -> real, windows: seq<Window>, a: nat, i: nat)
    requires IsMetric(dist) && a <= i < |windows|
    ensures dist(ActivationAt(windows, a), ActivationAt(windows, i)) <= ConfidentTravel(dist, windows, i) + LostTravel(dist, windows, a, i)
    decreases i
  {
    hide Activation, Sum;
    if a < i {
      StraightWithinTravel(dist, windows, a, i - 1);
      var x, y, z := ActivationAt(windows, a), ActivationAt(windows, i - 1), ActivationAt(windows, i);
      assert dist(x, z) <= dist(x, y) + dist(y, z);
    } else if i > 0 {
      StraightWithinTravel(dist, windows, i - 1, i - 1);
    }
  }

  lemma {:induction false} AnchorIsEarlier(windows: seq<Window>, i: nat)
    requires i < |windows| && Sum(windows[i].counts) >= N_MIN
    ensures AnchorIndex(windows) <= i && Anchor(FullSeries(windows)) == ActivationAt(windows, AnchorIndex(windows))
    ensures Sum(windows[AnchorIndex(windows)].counts) >= N_MIN
  {
    hide Activation, Sum;
    var s := FullSeries(windows);
    FirstConfidentOfPrefix(s, |s|, 0, i);
    assert s[..|s|] == s;
    FirstConfidentIsConfident(s, 0, i);
  }

  lemma {:induction false} FirstConfidentIsConfident(s: seq<Sample>, from: nat, i: nat)
    requires from <= i < |s| && s[i].messages >= N_MIN
    ensures s[FirstConfident(s, from)].messages >= N_MIN
    decreases i - from
  {
    if s[from].messages < N_MIN { FirstConfidentIsConfident(s, from + 1, i); }
  }

  /** The displacement of a confident row is measured from the anchor, and its ratio, where the
    * length is not zero, is displacement over length. */
  lemma {:induction false} RatioOfRow(n: Numerics, kind: WindowType, windows: seq<Window>, i: nat)
    requires IsMetric(n.dist) && i < |windows| && Sum(windows[i].counts) >= N_MIN
    ensures var r, d, l := FullRow(n, kind, windows, i),
        n.dist(ActivationAt(windows, AnchorIndex(windows)), ActivationAt(windows, i)), ConfidentTravel(n.dist, windows, i);
      r.displacement == d && r.length == l && l >= 0.0 && r.ratio == if l == 0.0 then None else Some(d / l)
  {
    hide Activation, Sum, ConfidentTravel, Recent, KRecent, ClassifyPhase, IsMetric, Anchor, AnchorIndex;
    AnchorIsEarlier(windows, i);
    LengthIsConfidentTravel(n, kind, windows, i);
    LengthNeverDecreases(n, kind, windows, i, i);
  }

  /** The stored displacement exceeds the stored length by at most what the quiet windows since the
    * anchor travelled. */
  lemma {:induction false} DisplacementWithinTravel(n: Numerics, kind: WindowType, windows: seq<Window>, i: nat)
    requires IsMetric(n.dist) && i < |windows| && Sum(windows[i].counts) >= N_MIN
    ensures var r := FullRow(n, kind, windows, i);
      r.displacement <= r.length + LostTravel(n.dist, windows, AnchorIndex(windows), i)
  {
    hide Activation, Sum, ConfidentTravel, LostTravel, IsMetric, FullRow, AnchorIndex;
    AnchorIsEarlier(windows, i);
    RatioOfRow(n, kind, windows, i);
    StraightWithinTravel(n.dist, windows, AnchorIndex(windows), i);
  }

  // ----- the steps that count -----

  type Step = (Vector, Vector)

  /** The steps added to the length: those of the confident windows. */
  function ConfidentSteps(windows: seq<Window>, i: nat): seq<Step>
    requires i < |windows|
  {
    (if i == 0 then [] else ConfidentSteps(windows, i - 1)) +
    (if Sum(windows[i].counts) < N_MIN then [] else [(ActivationAt(windows, if i == 0 then 0 else i - 1), ActivationAt(windows, i))])
  }

  function Total(dist: (Vector, Vector) -> real, steps: seq<Step>): real {
    if steps == [] then 0.0 else Total(dist, steps[..|steps| - 1]) + dist(steps[|steps| - 1].0, steps[|steps| - 1].1)
  }

  lemma {:induction false} TravelIsTotal(dist: (Vector, Vector) -> real, windows: seq<Window>, i: nat)
    requires i < |windows|
    ensures ConfidentTravel(dist, windows, i) == Total(dist, ConfidentSteps(windows, i))
  {
    hide Activation, Sum;
    if i > 0 { TravelIsTotal(dist, windows, i - 1); }
    var before: seq<Step> := if i == 0 then [] else ConfidentSteps(windows, i - 1);
    if Sum(windows[i].counts) >= N_MIN {
      var all := ConfidentSteps(windows, i);
      assert all[..|all| - 1] == before;
    } else {
      assert ConfidentSteps(windows, i) == before;
    }
  }

  /** The steps without step `k`. */
  function Drop(steps: seq<Step>, k: nat): seq<Step>
    requires k < |steps|
  {
    steps[..k] + steps[k + 1..]
  }

  lemma {:induction false} TotalWithout(dist: (Vector, Vector) -> real, steps: seq<Step>, k: nat)
    requires k < |steps|
    ensures Total(dist, steps) == dist(steps[k].0, steps[k].1) + Total(dist, Drop(steps, k))
  {
    var last := |steps| - 1;
    if k < last {
      TotalWithout(dist, steps[..last], k);
      assert Drop(steps, k)[..last - 1] == Drop(steps[..last], k);
    } else {
      assert Drop(steps, k) == steps[..last];
    }
  }

  predicate Meets(e: Step, x: Vector) { e.0 == x || e.1 == x }

  /** The other end of a step that meets `x`. */
  function Other(e: Step, x: Vector): Vector { if e.0 == x then e.1 else e.0 }

  /** `x` and `y` are joined by a trail of steps, each taken at most once, in either direction. */
  predicate Linked(x: Vector, y: Vector, steps: seq<Step>)
    decreases |steps|, 1
  {
    x == y || exists k: nat :: k < |steps| && Via(x, y, steps, k)
  }

  predicate Via(x: Vector, y: Vector, steps: seq<Step>, k: nat)
    decreases |steps|, 0
  {
    k < |steps| && Meets(steps[k], x) && Linked(Other(steps[k], x), y, Drop(steps, k))
  }

  /** What is linked is no farther apart than all steps together. */
  lemma {:induction false} LinkedIsShort(dist: (Vector, Vector) -> real, x: Vector, y: Vector, steps: seq<Step>)
    requires IsMetric(dist) && Linked(x, y, steps)
    ensures 0.0 <= dist(x, y) <= Total(dist, steps)
    decreases |steps|
  {
    if x == y {
      TotalIsNonNegative(dist, steps);
    } else {
      var k: nat :| k < |steps| && Via(x, y, steps, k);
      var u := Other(steps[k], x);
      LinkedIsShort(dist, u, y, Drop(steps, k));
      TotalWithout(dist, steps, k);
      assert dist(x, y) <= dist(x, u) + dist(u, y);
    }
  }

  lemma {:induction false} TotalIsNonNegative(dist: (Vector, Vector) -> real, steps: seq<Step>)
    requires IsMetric(dist)
    ensures Total(dist, steps) >= 0.0
  {
    if steps != [] { TotalIsNonNegative(dist, steps[..|steps| - 1]); }
  }

  /** A trail to one end of a step can be prolonged or cut to reach its other end. */
  lemma {:induction false} LinkedExtends(x: Vector, z: Vector, steps: seq<Step>, k: nat)
    requires Linked(x, z, steps) && k < |steps| && Meets(steps[k], z)
    ensures Linked(x, Other(steps[k], z), steps)
    decreases |steps|
  {
    var w := Other(steps[k], z);
    if x == z {
      assert Via(x, w, steps, k);
    } else {
      var m: nat :| m < |steps| && Via(x, z, steps, m);
      if m != k {
        var rest, k': nat := Drop(steps, m), if k < m then k else k - 1;
        assert rest[k'] == steps[k];
        LinkedExtends(Other(steps[m], x), z, rest, k');
        assert Via(x, w, steps, m);
      }
    }
  }

  /** Ends of one step are on the same side of a set no step leaves. */
  ghost predicate Closed(side: iset<Vector>, steps: seq<Step>) { forall k :: 0 <= k < |steps| ==> (steps[k].0 in side <==> steps[k].1 in side) }

  lemma {:induction false} LinkedStaysInside(x: Vector, y: Vector, steps: seq<Step>, side: iset<Vector>)
    requires Linked(x, y, steps) && Closed(side, steps) && x in side
    ensures y in side
    decreases |steps|
  {
    if x != y {
      var k: nat :| k < |steps| && Via(x, y, steps, k);
      LinkedStaysInside(Other(steps[k], x), y, Drop(steps, k), side);
    }
  }

  // ----- a metric with two levels -----

  ghost predicate Separates(dist: (Vector, Vector) -> real) { forall x: Vector, y: Vector :: dist(x, y) == 0.0 ==> x == y }

  /** Distance `eps` on either side of what is linked to `x`, and 1 across. */
  function TwoLevel(x: Vector, steps: seq<Step>, eps: real, u: Vector, v: Vector): real {
    if u == v then 0.0 else if Linked(x, u, steps) == Linked(x, v, steps) then eps else 1.0
  }

  function TwoLevelDist(x: Vector, steps: seq<Step>, eps: real): (Vector, Vector) -> real { (u, v) => TwoLevel(x, steps, eps, u, v) }

  lemma {:induction false} TwoLevelIsMetric(x: Vector, steps: seq<Step>, eps: real)
    requires 0.0 < eps <= 1.0
    ensures IsMetric(TwoLevelDist(x, steps, eps)) && Separates(TwoLevelDist(x, steps, eps))
  {
    hide Linked;
    var d := TwoLevelDist(x, steps, eps);
    forall u: Vector, v: Vector, w: Vector ensures d(u, w) <= d(u, v) + d(v, w) {}
  }

  /** No step crosses, so under that metric the steps are short together; but not all of no length. */
  lemma {:induction false} TwoLevelTotal(x: Vector, all: seq<Step>, eps: real, k: nat)
    requires 0.0 < eps <= 1.0 && k <= |all|
    ensures var l := Total(TwoLevelDist(x, all, eps), all[..k]);
      0.0 <= l <= eps * k as real && ((exists j :: 0 <= j < k && all[j].0 != all[j].1) ==> l >= eps)
  {
    hide Linked;
    if k > 0 {
      TwoLevelTotal(x, all, eps, k - 1);
      assert all[..k][..k - 1] == all[..k - 1];
      StepStaysOnSide(x, all, k - 1);
      OneMoreEps(eps, k - 1);
    }
  }

  lemma OneMoreEps(eps: real, k: nat)
    ensures eps * (k + 1) as real == eps * k as real + eps
  {
  }

  lemma {:induction false} StepStaysOnSide(x: Vector, steps: seq<Step>, k: nat)
    requires k < |steps|
    ensures Linked(x, steps[k].0, steps) <==> Linked(x, steps[k].1, steps)
  {
    hide Linked;
    if Linked(x, steps[k].0, steps) { LinkedExtends(x, steps[k].0, steps, k); }
    if Linked(x, steps[k].1, steps) {
      LinkedExtends(x, steps[k].1, steps, k);
    }
  }

  // ----- the ratio -----

  ghost predicate RatioAtMostOne(n: Numerics, kind: WindowType, windows: seq<Window>, i: nat)
    requires i < |windows|
  {
    var r := FullRow(n, kind, windows, i).ratio;
    r.Some? ==> 0.0 <= r.value <= 1.0
  }

  /** The ratio is at most 1 under every metric. */
  ghost predicate AlwaysAtMostOne(kind: WindowType, windows: seq<Window>, i: nat)
    requires i < |windows|
  {
    forall n: Numerics :: IsMetric(n.dist) && Separates(n.dist) ==> RatioAtMostOne(n, kind, windows, i)
  }

  /** Anchor and window `i` are linked by steps that count. */
  predicate AnchorLinked(windows: seq<Window>, i: nat)
    requires i < |windows|
  {
    Linked(ActivationAt(windows, AnchorIndex(windows)), ActivationAt(windows, i), ConfidentSteps(windows, i))
  }

  /** No step that counts moves at all. */
  predicate NothingMoves(windows: seq<Window>, i: nat)
    requires i < |windows|
  {
    var steps := ConfidentSteps(windows, i);
    forall k :: 0 <= k < |steps| ==> steps[k].0 == steps[k].1
  }

  lemma QuotientAtMostOne(d: real, l: real)
    requires 0.0 <= d && l > 0.0
    ensures 0.0 <= d / l && (d / l <= 1.0 <==> d <= l)
  {
    assert d / l * l == d;
  }

  lemma {:induction false} LinkedRatio(n: Numerics, kind: WindowType, windows: seq<Window>, i: nat)
    requires IsMetric(n.dist) && i < |windows| && Sum(windows[i].counts) >= N_MIN
    requires AnchorLinked(windows, i)
    ensures RatioAtMostOne(n, kind, windows, i)
  {
    hide Activation, Sum, ConfidentTravel, IsMetric, FullRow, AnchorIndex, Linked, ConfidentSteps;
    RatioOfRow(n, kind, windows, i);
    TravelIsTotal(n.dist, windows, i);
    var x, y := ActivationAt(windows, AnchorIndex(windows)), ActivationAt(windows, i);
    LinkedIsShort(n.dist, x, y, ConfidentSteps(windows, i));
    var l := ConfidentTravel(n.dist, windows, i);
    if l > 0.0 { QuotientAtMostOne(n.dist(x, y), l); }
  }

  lemma {:induction false} StillRatio(n: Numerics, kind: WindowType, windows: seq<Window>, i: nat)
    requires IsMetric(n.dist) && i < |windows| && Sum(windows[i].counts) >= N_MIN && NothingMoves(windows, i)
    ensures FullRow(n, kind, windows, i).ratio == None
  {
    hide Activation, Sum, ConfidentTravel, FullRow, AnchorIndex, ConfidentSteps;
    RatioOfRow(n, kind, windows, i);
    TravelIsTotal(n.dist, windows, i);
    StillTotal(n.dist, ConfidentSteps(windows, i));
  }

  lemma {:induction false} StillTotal(dist: (Vector, Vector) -> real, steps: seq<Step>)
    requires IsMetric(dist) && forall k :: 0 <= k < |steps| ==> steps[k].0 == steps[k].1
    ensures Total(dist, steps) == 0.0
  {
    if steps != [] { StillTotal(dist, steps[..|steps| - 1]); }
  }

  /** Numerics whose distance tells only the two levels apart. */
  function Witness(x: Vector, steps: seq<Step>, eps: real): Numerics {
    Numerics(TwoLevelDist(x, steps, eps), (t: Time, p: Vector, q: Vector, m: nat) => 0.0, (p: Vector) => 0.0, (p: Vector, q: Vector) => [])
  }

  lemma {:induction false} UnlinkedRatio(kind: WindowType, windows: seq<Window>, i: nat)
    requires i < |windows| && Sum(windows[i].counts) >= N_MIN && !AnchorLinked(windows, i) && !NothingMoves(windows, i)
    ensures exists n: Numerics :: IsMetric(n.dist) && Separates(n.dist) && !RatioAtMostOne(n, kind, windows, i)
  {
    hide Activation, Sum, ConfidentTravel, IsMetric, Separates, FullRow, AnchorIndex, Linked, ConfidentSteps;
    var steps := ConfidentSteps(windows, i);
    var x, y := ActivationAt(windows, AnchorIndex(windows)), ActivationAt(windows, i);
    var size := |steps| as real;
    var eps := 1.0 / (size + 1.0);
    ReciprocalBounds(size, eps);
    var n := Witness(x, steps, eps);
    TwoLevelIsMetric(x, steps, eps);
    TwoLevelTotal(x, steps, eps, |steps|);
    assert steps[..|steps|] == steps;
    TravelIsTotal(n.dist, windows, i);
    RatioOfRow(n, kind, windows, i);
    SelfLinked(x, steps);
    assert n.dist(x, y) == 1.0;
    QuotientAtMostOne(1.0, Total(n.dist, steps));
  }

  lemma SelfLinked(x: Vector, steps: seq<Step>)
    ensures Linked(x, x, steps)
  {
  }

  lemma ReciprocalBounds(x: real, eps: real)
    requires x >= 0.0 && eps == 1.0 / (x + 1.0)
    ensures 0.0 < eps <= 1.0 && eps * x < 1.0
  {
    assert eps * (x + 1.0) == 1.0;
    assert eps * x == 1.0 - eps;
  }

  /** The cumulative ratio of a confident window is at most 1 under every metric exactly if the
    * window is linked to the anchor by steps that count, or none of them moves and there is no ratio. */
  lemma {:induction false} CumulativeRatioIff(kind: WindowType, windows: seq<Window>, i: nat)
    requires i < |windows| && Sum(windows[i].counts) >= N_MIN
    ensures AlwaysAtMostOne(kind, windows, i) <==> AnchorLinked(windows, i) || NothingMoves(windows, i)
  {
    hide Sum, IsMetric, Separates, FullRow, AnchorLinked, NothingMoves;
    if AnchorLinked(windows, i) || NothingMoves(windows, i) {
      forall n: Numerics | IsMetric(n.dist) && Separates(n.dist) ensures RatioAtMostOne(n, kind, windows, i) {
        if AnchorLinked(windows, i) { LinkedRatio(n, kind, windows, i); } else { StillRatio(n, kind, windows, i); }
      }
    } else {
      UnlinkedRatio(kind, windows, i);
    }
  }

  // ----- in terms of quiet windows -----

  /** Every window strictly between the anchor and `i` is confident. */
  predicate NoQuietBetween(windows: seq<Window>, i: nat)
    requires i < |windows|
  {
    forall q :: AnchorIndex(windows) < q < i ==> Sum(windows[q].counts) >= N_MIN
  }

  ghost predicate DifferentActivations(windows: seq<Window>, i: nat)
    requires i < |windows|
  {
    forall p: nat, q: nat :: p < q <= i ==> ActivationAt(windows, p) != ActivationAt(windows, q)
  }

  lemma {:induction false} StepCounts(windows: seq<Window>, i: nat, j: nat)
    requires 0 < j <= i < |windows| && Sum(windows[j].counts) >= N_MIN
    ensures (ActivationAt(windows, j - 1), ActivationAt(windows, j)) in ConfidentSteps(windows, i)
  {
    hide Activation, Sum;
    if j < i { StepCounts(windows, i - 1, j); }
  }

  lemma {:induction false} ChainIsLinked(windows: seq<Window>, a: nat, j: nat, i: nat)
    requires a <= j <= i < |windows| && forall q :: a < q <= j ==> Sum(windows[q].counts) >= N_MIN
    ensures Linked(ActivationAt(windows, a), ActivationAt(windows, j), ConfidentSteps(windows, i))
    decreases j
  {
    hide Activation, Sum, ConfidentSteps, Linked;
    var x, steps := ActivationAt(windows, a), ConfidentSteps(windows, i);
    SelfLinked(x, steps);
    if a < j {
      ChainIsLinked(windows, a, j - 1, i);
      StepCounts(windows, i, j);
      var k :| 0 <= k < |steps| && steps[k] == (ActivationAt(windows, j - 1), ActivationAt(windows, j));
      LinkedExtends(x, ActivationAt(windows, j - 1), steps, k);
    }
  }

  /** Without a quiet window since the anchor the ratio is at most 1. */
  lemma {:induction false} NoQuietMeansLinked(windows: seq<Window>, i: nat)
    requires i < |windows| && Sum(windows[i].counts) >= N_MIN && NoQuietBetween(windows, i)
    ensures AnchorLinked(windows, i)
  {
    hide Activation, Sum, ConfidentSteps, Linked, AnchorIndex;
    AnchorIsEarlier(windows, i);
    ChainIsLinked(windows, AnchorIndex(windows), i, i);
  }

  ghost function Before(windows: seq<Window>, q: nat): iset<Vector>
    requires q <= |windows|
  {
    iset j: nat | j < q :: ActivationAt(windows, j)
  }

  /** A quiet window cuts the steps that count: none joins an earlier activation to a later one. */
  lemma {:induction false} QuietCuts(windows: seq<Window>, q: nat, i: nat, m: nat)
    requires 0 < q <= i < |windows| && m <= i && Sum(windows[q].counts) < N_MIN && DifferentActivations(windows, i)
    ensures Closed(Before(windows, q), ConfidentSteps(windows, m))
  {
    hide Activation, Sum, Before;
    if m > 0 { QuietCuts(windows, q, i, m - 1); }
    InBefore(windows, q, i, m);
    InBefore(windows, q, i, if m == 0 then 0 else m - 1);
  }

  lemma {:induction false} InBefore(windows: seq<Window>, q: nat, i: nat, m: nat)
    requires q <= i < |windows| && m <= i && DifferentActivations(windows, i)
    ensures ActivationAt(windows, m) in Before(windows, q) <==> m < q
  {
    hide Activation, ActivationAt;
    if ActivationAt(windows, m) in Before(windows, q) {
      var j: nat :| j < q && ActivationAt(windows, j) == ActivationAt(windows, m);
      assert j == m;
    }
  }

  /** For pairwise different activations: the ratio is at most 1 under every metric exactly if no
    * window strictly between the anchor and `i` has too few messages. */
  lemma {:induction false} CumulativeRatioIffNoQuiet(kind: WindowType, windows: seq<Window>, i: nat)
    requires i < |windows| && Sum(windows[i].counts) >= N_MIN && DifferentActivations(windows, i)
    ensures AlwaysAtMostOne(kind, windows, i) <==> NoQuietBetween(windows, i)
  {
    hide Activation, Sum, ConfidentSteps, Linked, AnchorIndex, AlwaysAtMostOne, Before;
    CumulativeRatioIff(kind, windows, i);
    AnchorIsEarlier(windows, i);
    if NoQuietBetween(windows, i) {
      NoQuietMeansLinked(windows, i);
    } else {
      var q: nat :| AnchorIndex(windows) < q < i && Sum(windows[q].counts) < N_MIN;
      var a, side := AnchorIndex(windows), Before(windows, q);
      QuietCuts(windows, q, i, i);
      InBefore(windows, q, i, a);
      InBefore(windows, q, i, i);
      if AnchorLinked(windows, i) { LinkedStaysInside(ActivationAt(windows, a), ActivationAt(windows, i), ConfidentSteps(windows, i), side); }
      StepCounts(windows, i, i);
    }
  }

  /** One quiet window between two busy ones is enough for some metric to put D / L above 1. */
  lemma {:induction false} CumulativeRatioCanExceedOne(kind: WindowType)
    ensures var windows := [Window(0, [15, 0]), Window(1, [0, 1]), Window(2, [0, 15])];
      !AlwaysAtMostOne(kind, windows, 2)
  {
    hide AlwaysAtMostOne;
    var windows := [Window(0, [15, 0]), Window(1, [0, 1]), Window(2, [0, 15])];
    SumOfTwo(15, 0);
    SumOfTwo(0, 1);
    SumOfTwo(0, 15);
    assert FullSeries(windows)[0].messages == 15;
    var p, q, r := ActivationAt(windows, 0), ActivationAt(windows, 1), ActivationAt(windows, 2);
    assert p[0] != q[0] && q[0] != r[0] && p[0] != r[0];
    CumulativeRatioIffNoQuiet(kind, windows, 2);
    assert Sum(windows[1].counts) < N_MIN;
  }

  lemma SumOfTwo(a: nat, b: nat)
    ensures Sum([a, b]) == a + b && Smoothed([a, b]) == (a + b) as real + 2.0 * EPSILON
  {
    assert [a, b][..1] == [a] && [a][..0] == [];
    assert Sum([a]) == a && Smoothed([a]) == a as real + EPSILON;
  }
}
