/** The incremental Fisher trajectory: one row per window, computed once and skipped afterwards. */
module FisherTrajectory {
  import opened Wrappers

  const EPSILON: real := 0.01
  const N_MIN: nat := 15
  const R_CYCLING: real := 0.3
  const R_EXPLORING_MAX: real := 0.7
  const R_RECENT_DAYS: nat := 90

  type Time = int
  type Vector = seq<real>

  /** Counts are per category, in the order of the category list, which is fixed within an era. */
  datatype Window = Window(start: Time, counts: seq<nat>)

  datatype Phase = Stable | Cycling | Exploring | Transforming

  datatype Row = Row(
    vector: Vector, velocity: real, z: Option<real>, displacement: real, length: real, ratio: Option<real>, phase: Phase,
    contributors: seq<string>, entropy: real, messages: nat, active: nat, lowConfidence: bool,
    recentRatio: Option<real>, recentPhase: Option<Phase>)

  /** The numerical routines: the Fisher distance, the z-score of a step (its random generator is
    * seeded by the window's start), the entropy and the top contributors. */
  datatype Numerics = Numerics(
    dist: (Vector, Vector) -> real, zScore: (Time, Vector, Vector, nat) -> real,
    entropy: Vector -> real, top: (Vector, Vector) -> seq<string>)

  datatype WindowType = Daily | WeeklyRolling | WeeklyStep | Monthly

  function Stride(w: WindowType): nat { if w == Daily || w == WeeklyRolling then 1 else 7 }

  /** `k_recent`: how many windows span the recent days, at least two. */
  function KRecent(w: WindowType): nat {
    var k := (R_RECENT_DAYS + Stride(w) - 1) / Stride(w);
    if k < 2 then 2 else k
  }

  // ----- one window -----

  function Sum(counts: seq<nat>): nat { if counts == [] then 0 else Sum(counts[..|counts| - 1]) + counts[|counts| - 1] }

  function ActiveCount(counts: seq<nat>): nat {
    if counts == [] then 0 else ActiveCount(counts[..|counts| - 1]) + if counts[|counts| - 1] > 0 then 1 else 0
  }

  function Smoothed(counts: seq<nat>): (total: real)
    ensures total >= 0.0 && (counts != [] ==> total > 0.0)
  {
    if counts == [] then 0.0 else Smoothed(counts[..|counts| - 1]) + (counts[|counts| - 1] as real + EPSILON)
  }

  /** `activation_vector`: the smoothed shares. */
  function Activation(counts: seq<nat>): Vector {
    seq(|counts|, i requires 0 <= i < |counts| => (counts[i] as real + EPSILON) / Smoothed(counts))
  }

  function ExplorationRatio(d: real, l: real): Option<real> { if l < 0.0 || l == 0.0 then None else Some(d / l) }

  function ClassifyPhase(l: real, r: Option<real>): Phase {
    if l < 0.0 || r.None? then Stable
    else if r.value < R_CYCLING then Cycling
    else if r.value < R_EXPLORING_MAX then Exploring
    else Transforming
  }

  // ----- the series a run works on -----

  /** A window of the series; `stored` is the trajectory length of the row it already has. */
  datatype Sample = Sample(start: Time, vector: Vector, messages: nat, active: nat, stored: Option<real>)

  function SampleOf(w: Window, existing: map<Time, Row>): Sample {
    if w.start in existing
    then Sample(w.start, existing[w.start].vector, existing[w.start].messages, existing[w.start].active, Some(existing[w.start].length))
    else Sample(w.start, Activation(w.counts), Sum(w.counts), ActiveCount(w.counts), None)
  }

  function SeriesOf(windows: seq<Window>, existing: map<Time, Row>): seq<Sample> {
    seq(|windows|, i requires 0 <= i < |windows| => SampleOf(windows[i], existing))
  }

  function FirstConfident(series: seq<Sample>, from: nat): (i: nat)
    requires from <= |series|
    ensures series != [] ==> i < |series|
    decreases |series| - from
  {
    if from == |series| then 0 else if series[from].messages >= N_MIN then from else FirstConfident(series, from + 1)
  }

  /** The first window with enough messages, or the first window. */
  function Anchor(series: seq<Sample>): Vector {
    if series == [] then [] else series[FirstConfident(series, 0)].vector
  }

  function Previous(series: seq<Sample>, i: nat): Vector
    requires i < |series|
  {
    if i > 0 then series[i - 1].vector else series[i].vector
  }

  /** The sum of the consecutive distances of a slice. */
  function PathLength(dist: (Vector, Vector) -> real, slice: seq<Sample>): real {
    if |slice| < 2 then 0.0
    else PathLength(dist, slice[..|slice| - 1]) + dist(slice[|slice| - 2].vector, slice[|slice| - 1].vector)
  }

  /** `compute_step` and the rolling ratio, given the trajectory length carried in. */
  function RowAt(n: Numerics, kind: WindowType, series: seq<Sample>, i: nat, carried: real): Row
    requires i < |series|
  {
    var s, prev, k := series[i], Previous(series, i), KRecent(kind);
    if s.messages < N_MIN then
      Row(s.vector, 0.0, None, 0.0, carried, None, Stable, [], n.entropy(s.vector), s.messages, s.active, true, None, None)
    else
      var ds, d := n.dist(prev, s.vector), n.dist(Anchor(series), s.vector);
      var r := ExplorationRatio(d, carried + ds);
      var recent := Recent(n.dist, series, i, k);
      Row(s.vector, ds / Stride(kind) as real, Some(n.zScore(s.start, prev, s.vector, s.messages)), d, carried + ds, r,
          ClassifyPhase(carried + ds, r), n.top(prev, s.vector), n.entropy(s.vector), s.messages, s.active, false, recent.0, recent.1)
  }

  function Recent(dist: (Vector, Vector) -> real, series: seq<Sample>, i: nat, k: nat): (Option<real>, Option<Phase>)
    requires i < |series|
  {
    if i + 1 < k || k == 0 then (None, None) else
      var slice := series[i + 1 - k..i + 1];
      var l := PathLength(dist, slice);
      var r := ExplorationRatio(dist(slice[0].vector, slice[k - 1].vector), l);
      (r, Some(ClassifyPhase(l, r)))
  }

  /** `cumulative_L` after the first `i` windows: a stored row's own length, or what its step adds. */
  function Carried(n: Numerics, kind: WindowType, series: seq<Sample>, i: nat): real
    requires i <= |series|
  {
    if i == 0 then 0.0
    else match series[i - 1].stored
      case Some(l) => l
      case None =>
        if series[i - 1].messages < N_MIN then Carried(n, kind, series, i - 1)
        else Carried(n, kind, series, i - 1) + n.dist(Previous(series, i - 1), series[i - 1].vector)
  }

  /** The rows upserted by the first `i` windows of a run. */
  function Upserted(n: Numerics, kind: WindowType, series: seq<Sample>, table: map<Time, Row>, i: nat): map<Time, Row>
    requires i <= |series|
  {
    if i == 0 then table
    else
      var before := Upserted(n, kind, series, table, i - 1);
      if series[i - 1].stored.Some? then before
      else before[series[i - 1].start := RowAt(n, kind, series, i - 1, Carried(n, kind, series, i - 1))]
  }

  /** The stored rows a run takes over. */
  function Readable(table: map<Time, Row>, ignored: set<Time>): (r: map<Time, Row>)
    ensures forall t :: t in r <==> t in table && t !in ignored
    ensures forall t :: t in r ==> r[t] == table[t]
    ensures ignored == {} || table == map[] ==> r == table
  {
    table - ignored
  }

  /** A run that got through its first `done` windows and took the stored rows except the `ignored`
    * ones; fewer than two windows are left alone. */
  function AfterRun(n: Numerics, kind: WindowType, windows: seq<Window>, table: map<Time, Row>, ignored: set<Time>, done: nat): map<Time, Row> {
    if |windows| < 2 || done > |windows| then table
    else Upserted(n, kind, SeriesOf(windows, Readable(table, ignored)), table, done)
  }

  /** The rows of one (level, window type) in one era. */
  class Trajectory {
    var table: map<Time, Row>

    /** `run_level_window`; a full run ignores every stored row, any run those it cannot parse; `stop` is
      * where the process dies, if it does. */
    method RunLevelWindow(n: Numerics, kind: WindowType, windows: seq<Window>, forceFull: bool, unreadable: set<Time>, stop: nat) returns (written: nat, skipped: nat)
      requires stop <= |windows|
      modifies this
      ensures table == AfterRun(n, kind, windows, old(table), if forceFull then old(table).Keys else unreadable, stop)
      ensures written + skipped == if |windows| < 2 then 0 else stop
    {
      hide Activation, KRecent, SeriesOf, RowAt, Anchor;
      written, skipped := 0, 0;
      var existing := Readable(table, if forceFull then table.Keys else unreadable);
      var series := BuildSeries(windows, existing);
      if |series| < 2 { return; }

      var anchor := Anchor(series);
      var cumulativeL := 0.0;
      var k := KRecent(kind);
      for i := 0 to stop
        invariant cumulativeL == Carried(n, kind, series, i)
        invariant table == Upserted(n, kind, series, old(table), i)
        invariant written + skipped == i
      {
        var window := series[i];
        if window.stored.Some? {
          cumulativeL := window.stored.value;
          skipped := skipped + 1;
        } else {
          var row := Step(n, kind, series, i, anchor, cumulativeL, k);
          if !row.lowConfidence { cumulativeL := row.length; }
          table := table[window.start := row];
          written := written + 1;
        }
      }
    }
  }

  /** Stored windows stand for themselves; the others are counted. */
  method BuildSeries(windows: seq<Window>, existing: map<Time, Row>) returns (series: seq<Sample>)
    ensures series == SeriesOf(windows, existing) && |series| == |windows|
  {
    hide SampleOf;
    series := [];
    for j := 0 to |windows|
      invariant |series| == j && forall a :: 0 <= a < j ==> series[a] == SampleOf(windows[a], existing)
    {
      series := series + [SampleOf(windows[j], existing)];
    }
  }

  /** The body of the loop for a window that has no row yet. */
  method Step(n: Numerics, kind: WindowType, series: seq<Sample>, i: nat, anchor: Vector, cumulativeL: real, k: nat) returns (row: Row)
    requires i < |series| && anchor == Anchor(series) && k == KRecent(kind)
    ensures row == RowAt(n, kind, series, i, cumulativeL)
    ensures row.lowConfidence <==> series[i].messages < N_MIN
    ensures !row.lowConfidence ==> row.length == cumulativeL + n.dist(Previous(series, i), series[i].vector)
  {
    hide KRecent, Anchor;
    var s := series[i];
    if s.messages < N_MIN {
      return Row(s.vector, 0.0, None, 0.0, cumulativeL, None, Stable, [], n.entropy(s.vector), s.messages, s.active, true, None, None);
    }
    var prev := if i > 0 then series[i - 1].vector else s.vector;
    var ds := n.dist(prev, s.vector);
    var l := cumulativeL + ds;
    var d := n.dist(anchor, s.vector);
    var r := ExplorationRatio(d, l);
    var recentRatio, recentPhase := RecentRatio(n.dist, series, i, k);
    row := Row(s.vector, ds / Stride(kind) as real, Some(n.zScore(s.start, prev, s.vector, s.messages)), d, l, r, ClassifyPhase(l, r),
      n.top(prev, s.vector), n.entropy(s.vector), s.messages, s.active, false, recentRatio, recentPhase);
  }

  /** The rolling ratio of the last `k` windows. */
  method RecentRatio(dist: (Vector, Vector) -> real, series: seq<Sample>, i: nat, k: nat) returns (ratio: Option<real>, phase: Option<Phase>)
    requires i < |series|
    ensures (ratio, phase) == Recent(dist, series, i, k)
  {
    if i + 1 < k || k == 0 { return None, None; }
    var slice := series[i + 1 - k..i + 1];
    var l := 0.0;
    for j := 1 to k
      invariant l == PathLength(dist, slice[..j])
    {
      l := l + dist(slice[j - 1].vector, slice[j].vector);
      assert slice[..j + 1][..j] == slice[..j];
    }
    assert slice[..k] == slice;
    ratio := ExplorationRatio(dist(slice[0].vector, slice[k - 1].vector), l);
    phase := Some(ClassifyPhase(l, ratio));
  }
}
