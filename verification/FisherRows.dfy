/** What the columns of a stored row say about the windows, in numbers. */
module FisherRows {
  import opened Wrappers
  import opened Ratios
  import opened FisherTrajectory
  import opened FisherRuns
  import opened FisherRatio

  // ----- shares -----

  function AddUp(s: seq<real>): real { if s == [] then 0.0 else AddUp(s[..|s| - 1]) + s[|s| - 1] }

  /** Adding one hundredth per category. */
  lemma {:induction false} SmoothedTotal(counts: seq<nat>)
    ensures Smoothed(counts) == Sum(counts) as real + 0.01 * |counts| as real
  {
    if counts != [] { SmoothedTotal(counts[..|counts| - 1]); }
  }

  lemma QuotientTimes(x: real, d: real)
    requires d > 0.0
    ensures x / d * d == x && (x > 0.0 ==> x / d > 0.0)
  {
    if x > 0.0 { QuotientAgainst(x, d, 0.0); }
  }

  lemma {:induction false} SharesAddUp(counts: seq<nat>, total: real, j: nat)
    requires j <= |counts| && total > 0.0
    ensures AddUp(seq(j, i requires 0 <= i < j => (counts[i] as real + EPSILON) / total)) * total == Smoothed(counts[..j])
  {
    var shares := seq(j, i requires 0 <= i < j => (counts[i] as real + EPSILON) / total);
    if j > 0 {
      var front := seq(j - 1, i requires 0 <= i < j - 1 => (counts[i] as real + EPSILON) / total);
      SharesAddUp(counts, total, j - 1);
      assert shares[..j - 1] == front && counts[..j][..j - 1] == counts[..j - 1];
      QuotientTimes(counts[j - 1] as real + EPSILON, total);
      AddProducts(AddUp(front), shares[j - 1], total);
    }
  }

  lemma AddProducts(a: real, b: real, t: real)
    ensures (a + b) * t == a * t + b * t
  {
  }

  lemma OneFactor(a: real, t: real, p: real)
    requires t > 0.0 && a * t == p && p == t
    ensures a == 1.0
  {
    assert (a - 1.0) * t == 0.0;
  }

  lemma {:induction false} ShareOf(counts: seq<nat>, c: nat)
    requires c < |counts|
    ensures Activation(counts)[c] > 0.0 && Activation(counts)[c] * Smoothed(counts) == counts[c] as real + 0.01
  {
    QuotientTimes(counts[c] as real + EPSILON, Smoothed(counts));
  }

  lemma {:induction false} SharesMakeOne(counts: seq<nat>)
    requires counts != []
    ensures AddUp(Activation(counts)) == 1.0
  {
    hide AddUp;
    var total := Smoothed(counts);
    SharesAddUp(counts, total, |counts|);
    assert counts[..|counts|] == counts && Activation(counts) == seq(|counts|, i requires 0 <= i < |counts| => (counts[i] as real + EPSILON) / total);
    OneFactor(AddUp(Activation(counts)), total, Smoothed(counts[..|counts|]));
  }

  /** The activation vector is a distribution: positive shares that add up to 1, each in proportion to its
    * count plus a hundredth. */
  lemma {:induction false} ActivationIsDistribution(counts: seq<nat>)
    ensures |Activation(counts)| == |counts| && (counts != [] ==> AddUp(Activation(counts)) == 1.0)
    ensures forall c :: 0 <= c < |counts| ==>
      Activation(counts)[c] > 0.0 && Activation(counts)[c] * (Sum(counts) as real + 0.01 * |counts| as real) == counts[c] as real + 0.01
  {
    hide AddUp, Smoothed, Sum;
    SmoothedTotal(counts);
    if counts != [] { SharesMakeOne(counts); }
    forall c | 0 <= c < |counts|
      ensures Activation(counts)[c] > 0.0 && Activation(counts)[c] * (Sum(counts) as real + 0.01 * |counts| as real) == counts[c] as real + 0.01
    {
      ShareOf(counts, c);
    }
  }

  function Active(counts: seq<nat>): set<nat> { set c: nat | c < |counts| && counts[c] >= 1 }

  lemma {:induction false} ActiveCounts(counts: seq<nat>)
    ensures ActiveCount(counts) == |Active(counts)|
  {
    if counts == [] {
      assert Active(counts) == {};
    } else {
      var last := |counts| - 1;
      ActiveCounts(counts[..last]);
      assert Active(counts) == Active(counts[..last]) + if counts[last] >= 1 then {last} else {};
    }
  }

  // ----- phases -----

  /** A trail of length `l` whose ends are `d` apart: cycling below three tenths, transforming from seven
    * tenths on, exploring between, and stable if there is no trail. */
  predicate IsPhase(p: Phase, d: real, l: real) {
    && (p == Stable <==> l <= 0.0)
    && (p == Cycling <==> l > 0.0 && 10.0 * d < 3.0 * l)
    && (p == Exploring <==> l > 0.0 && 10.0 * d >= 3.0 * l && 10.0 * d < 7.0 * l)
    && (p == Transforming <==> l > 0.0 && 10.0 * d >= 7.0 * l)
  }

  predicate IsRatio(r: Option<real>, d: real, l: real) {
    (r.None? <==> l <= 0.0) && (r.Some? ==> r.value * l == d)
  }

  lemma RatioAndPhase(d: real, l: real)
    ensures IsRatio(ExplorationRatio(d, l), d, l) && IsPhase(ClassifyPhase(l, ExplorationRatio(d, l)), d, l)
  {
    if l > 0.0 {
      QuotientAgainst(d, l, 0.3);
      QuotientAgainst(d, l, 0.7);
      QuotientTimes(d, l);
    }
  }

  // ----- the row of a window -----

  /** The way along all windows from `a` to `i`. */
  function Way(dist: (Vector, Vector) -> real, windows: seq<Window>, a: nat, i: nat): real
    requires a <= i < |windows|
  {
    if a == i then 0.0 else Way(dist, windows, a, i - 1) + dist(ActivationAt(windows, i - 1), ActivationAt(windows, i))
  }

  lemma {:induction false} WayIsPath(dist: (Vector, Vector) -> real, windows: seq<Window>, a: nat, i: nat)
    requires a <= i < |windows|
    ensures Way(dist, windows, a, i) == PathLength(dist, FullSeries(windows)[a..i + 1])
    decreases i
  {
    hide Activation;
    if a < i {
      WayIsPath(dist, windows, a, i - 1);
      assert FullSeries(windows)[a..i + 1][..i - a] == FullSeries(windows)[a..i];
    }
  }

  /** A rolling slice is 90 daily starts or 13 weekly ones. */
  function SliceLength(kind: WindowType): nat { if kind == Daily || kind == WeeklyRolling then 90 else 13 }

  lemma SliceIsRecent(kind: WindowType)
    ensures KRecent(kind) == SliceLength(kind)
  {
  }

  lemma {:induction false} RecentOfWindows(n: Numerics, kind: WindowType, windows: seq<Window>, i: nat)
    requires i < |windows|
    ensures var k, r := SliceLength(kind), Recent(n.dist, FullSeries(windows), i, KRecent(kind));
      if i + 1 < k then r == (None, None)
      else
        var d, l := n.dist(ActivationAt(windows, i + 1 - k), ActivationAt(windows, i)), Way(n.dist, windows, i + 1 - k, i);
        IsRatio(r.0, d, l) && r.1.Some? && IsPhase(r.1.value, d, l)
  {
    hide Activation, ExplorationRatio, ClassifyPhase, IsRatio, IsPhase, PathLength;
    SliceIsRecent(kind);
    var k := SliceLength(kind);
    if i + 1 >= k {
      WayIsPath(n.dist, windows, i + 1 - k, i);
      RatioAndPhase(n.dist(ActivationAt(windows, i + 1 - k), ActivationAt(windows, i)), Way(n.dist, windows, i + 1 - k, i));
    }
  }

  /** A window with fewer than 15 messages: no step, no ratio, the length carried on. */
  lemma {:induction false} QuietRow(n: Numerics, kind: WindowType, windows: seq<Window>, i: nat)
    requires i < |windows| && Sum(windows[i].counts) < 15
    ensures var r, v := FullRow(n, kind, windows, i), ActivationAt(windows, i);
      && r.lowConfidence && r.vector == v && r.messages == Sum(windows[i].counts) && r.active == |Active(windows[i].counts)|
      && r.velocity == 0.0 && r.z == None && r.displacement == 0.0 && r.length == ConfidentTravel(n.dist, windows, i)
      && r.ratio == None && r.phase == Stable && r.contributors == [] && r.entropy == n.entropy(v)
      && r.recentRatio == None && r.recentPhase == None
  {
    hide Activation, Sum, ConfidentTravel, Active;
    LengthIsConfidentTravel(n, kind, windows, i);
    ActiveCounts(windows[i].counts);
  }

  /** A window with 15 messages or more: its step from the window before, per day of the stride; its
    * distance from the anchor against the length so far; and the same over the rolling slice. */
  lemma {:induction false} BusyRow(n: Numerics, kind: WindowType, windows: seq<Window>, i: nat)
    requires i < |windows| && Sum(windows[i].counts) >= 15
    ensures var r, v, u := FullRow(n, kind, windows, i), ActivationAt(windows, i), ActivationAt(windows, if i == 0 then 0 else i - 1);
      && !r.lowConfidence && r.vector == v && r.messages == Sum(windows[i].counts) && r.active == |Active(windows[i].counts)|
      && r.velocity * (if kind == Daily || kind == WeeklyRolling then 1.0 else 7.0) == n.dist(u, v)
      && r.z == Some(n.zScore(windows[i].start, u, v, r.messages)) && r.contributors == n.top(u, v) && r.entropy == n.entropy(v)
    ensures var r, v := FullRow(n, kind, windows, i), ActivationAt(windows, i);
      && r.displacement == n.dist(ActivationAt(windows, AnchorIndex(windows)), v) && r.length == ConfidentTravel(n.dist, windows, i)
      && IsRatio(r.ratio, r.displacement, r.length) && IsPhase(r.phase, r.displacement, r.length)
    ensures var r, k := FullRow(n, kind, windows, i), SliceLength(kind);
      if i + 1 < k then r.recentRatio == None && r.recentPhase == None
      else
        var d, l := n.dist(ActivationAt(windows, i + 1 - k), ActivationAt(windows, i)), Way(n.dist, windows, i + 1 - k, i);
        IsRatio(r.recentRatio, d, l) && r.recentPhase.Some? && IsPhase(r.recentPhase.value, d, l)
  {
    hide Activation, Sum, ConfidentTravel, Active, Recent, KRecent, IsRatio, IsPhase, Anchor, AnchorIndex, ExplorationRatio, ClassifyPhase, Way, SliceLength;
    LengthIsConfidentTravel(n, kind, windows, i);
    ActiveCounts(windows[i].counts);
    AnchorIsEarlier(windows, i);
    RecentOfWindows(n, kind, windows, i);
    RatioAndPhase(n.dist(Anchor(FullSeries(windows)), ActivationAt(windows, i)), ConfidentTravel(n.dist, windows, i));
  }

  /** The anchor is the first window with 15 messages or more. */
  lemma {:induction false} AnchorIsFirst(windows: seq<Window>, i: nat)
    requires i < |windows| && Sum(windows[i].counts) >= 15
    ensures var a := AnchorIndex(windows);
      a <= i && Sum(windows[a].counts) >= 15 && forall j :: 0 <= j < a ==> Sum(windows[j].counts) < 15
  {
    hide Sum, AnchorIndex, Activation;
    AnchorIsEarlier(windows, i);
    forall j | 0 <= j < AnchorIndex(windows) ensures Sum(windows[j].counts) < 15 {
      if Sum(windows[j].counts) >= 15 { AnchorIsEarlier(windows, j); }
    }
  }
}
