/** Any sequence of incremental runs leaves the rows of one full recompute; what the stored
  * lengths and ratios mean. */
module FisherRuns {
  import opened Wrappers
  import opened FisherTrajectory

  function FullSeries(windows: seq<Window>): seq<Sample> { SeriesOf(windows, map[]) }

  /** Row `i` of a recompute from nothing. */
  function FullRow(n: Numerics, kind: WindowType, windows: seq<Window>, i: nat): Row
    requires i < |windows|
  {
    RowAt(n, kind, FullSeries(windows), i, Carried(n, kind, FullSeries(windows), i))
  }

  ghost predicate DistinctStarts(windows: seq<Window>) { forall i, j :: 0 <= i < j < |windows| ==> windows[i].start != windows[j].start }

  ghost predicate IsFullRow(n: Numerics, kind: WindowType, windows: seq<Window>, t: Time, r: Row, i: nat) {
    i < |windows| && windows[i].start == t && r == FullRow(n, kind, windows, i)
  }

  /** Every row of the table is the one a full recompute writes; any of them may be missing. */
  ghost predicate PartOfFull(n: Numerics, kind: WindowType, windows: seq<Window>, table: map<Time, Row>) {
    forall t :: t in table ==> exists i: nat :: IsFullRow(n, kind, windows, t, table[t], i)
  }

  // ----- stored rows stand in for their windows -----

  /** Two series that differ only in which windows are stored. */
  ghost predicate SameWindows(s: seq<Sample>, t: seq<Sample>) {
    |s| == |t| && forall i :: 0 <= i < |s| ==> s[i].(stored := None) == t[i].(stored := None)
  }

  lemma {:induction false} FirstConfidentSame(s: seq<Sample>, t: seq<Sample>, from: nat)
    requires SameWindows(s, t) && from <= |s|
    ensures FirstConfident(s, from) == FirstConfident(t, from)
    decreases |s| - from
  {
    if from < |s| { assert s[from].(stored := None) == t[from].(stored := None); FirstConfidentSame(s, t, from + 1); }
  }

  lemma AnchorSame(s: seq<Sample>, t: seq<Sample>)
    requires SameWindows(s, t)
    ensures Anchor(s) == Anchor(t)
  {
    if s != [] {
      FirstConfidentSame(s, t, 0);
      assert s[FirstConfident(s, 0)].(stored := None) == t[FirstConfident(s, 0)].(stored := None);
    }
  }

  lemma {:induction false} PathLengthSame(dist: (Vector, Vector) -> real, s: seq<Sample>, t: seq<Sample>)
    requires SameWindows(s, t)
    ensures PathLength(dist, s) == PathLength(dist, t)
  {
    var k := |s|;
    if k >= 2 {
      assert s[k - 1].(stored := None) == t[k - 1].(stored := None) && s[k - 2].(stored := None) == t[k - 2].(stored := None);
      PathLengthSame(dist, s[..k - 1], t[..k - 1]);
    }
  }

  lemma {:induction false} RecentSame(dist: (Vector, Vector) -> real, s: seq<Sample>, t: seq<Sample>, i: nat, k: nat)
    requires SameWindows(s, t) && i < |s|
    ensures Recent(dist, s, i, k) == Recent(dist, t, i, k)
  {
    if i + 1 >= k > 0 {
      PathLengthSame(dist, s[i + 1 - k..i + 1], t[i + 1 - k..i + 1]);
      assert s[i + 1 - k].(stored := None) == t[i + 1 - k].(stored := None) && s[i].(stored := None) == t[i].(stored := None);
    }
  }

  lemma {:induction false} RowSame(n: Numerics, kind: WindowType, s: seq<Sample>, t: seq<Sample>, i: nat, carried: real)
    requires SameWindows(s, t) && i < |s|
    ensures RowAt(n, kind, s, i, carried) == RowAt(n, kind, t, i, carried)
  {
    hide KRecent, Anchor, Recent, ClassifyPhase, ExplorationRatio;
    AnchorSame(s, t);
    RecentSame(n.dist, s, t, i, KRecent(kind));
    assert s[i].(stored := None) == t[i].(stored := None);
    if i > 0 { assert s[i - 1].(stored := None) == t[i - 1].(stored := None); }
  }

  lemma {:induction false} StoredStandsIn(n: Numerics, kind: WindowType, windows: seq<Window>, table: map<Time, Row>, i: nat)
    requires DistinctStarts(windows) && PartOfFull(n, kind, windows, table) && i < |windows|
    ensures SeriesOf(windows, table)[i].(stored := None) == FullSeries(windows)[i]
    ensures windows[i].start in table ==> table[windows[i].start] == FullRow(n, kind, windows, i)
  {
    hide RowAt;
    var t := windows[i].start;
    if t in table {
      var j: nat :| IsFullRow(n, kind, windows, t, table[t], j);
      assert j == i;
      RowDescribesWindow(n, kind, FullSeries(windows), i, Carried(n, kind, FullSeries(windows), i));
    }
  }

  lemma RowDescribesWindow(n: Numerics, kind: WindowType, series: seq<Sample>, i: nat, carried: real)
    requires i < |series|
    ensures var r := RowAt(n, kind, series, i, carried);
      r.vector == series[i].vector && r.messages == series[i].messages && r.active == series[i].active
      && r.lowConfidence == (series[i].messages < N_MIN)
      && r.length == carried + (if r.lowConfidence then 0.0 else n.dist(Previous(series, i), series[i].vector))
  {
  }

  /** The length carried into a window does not depend on which earlier windows are stored. */
  lemma {:induction false} CarriedSame(n: Numerics, kind: WindowType, windows: seq<Window>, table: map<Time, Row>, i: nat)
    requires DistinctStarts(windows) && PartOfFull(n, kind, windows, table) && i <= |windows|
    ensures Carried(n, kind, SeriesOf(windows, table), i) == Carried(n, kind, FullSeries(windows), i)
  {
    hide RowAt;
    if i > 0 {
      CarriedSame(n, kind, windows, table, i - 1);
      StoredStandsIn(n, kind, windows, table, i - 1);
      RowDescribesWindow(n, kind, FullSeries(windows), i - 1, Carried(n, kind, FullSeries(windows), i - 1));
      if i > 1 { StoredStandsIn(n, kind, windows, table, i - 2); }
    }
  }

  /** Whatever part of the full table is there, a run writes only rows of the full table. */
  lemma {:induction false} UpsertsAreFull(n: Numerics, kind: WindowType, windows: seq<Window>, table: map<Time, Row>, existing: map<Time, Row>, i: nat)
    requires DistinctStarts(windows) && PartOfFull(n, kind, windows, table) && PartOfFull(n, kind, windows, existing) && existing.Keys <= table.Keys
    requires i <= |windows|
    ensures var u := Upserted(n, kind, SeriesOf(windows, existing), table, i);
      PartOfFull(n, kind, windows, u) && table.Keys <= u.Keys && forall j :: 0 <= j < i ==> windows[j].start in u
  {
    hide RowAt, Carried;
    if i > 0 {
      UpsertsAreFull(n, kind, windows, table, existing, i - 1);
      var series, full, w := SeriesOf(windows, existing), FullSeries(windows), windows[i - 1];
      var before := Upserted(n, kind, series, table, i - 1);
      if series[i - 1].stored.None? {
        var row := RowAt(n, kind, series, i - 1, Carried(n, kind, series, i - 1));
        CarriedSame(n, kind, windows, existing, i - 1);
        forall a | 0 <= a < |series| ensures series[a].(stored := None) == full[a].(stored := None) { StoredStandsIn(n, kind, windows, existing, a); }
        RowSame(n, kind, series, full, i - 1, Carried(n, kind, full, i - 1));
        assert IsFullRow(n, kind, windows, w.start, row, i - 1);
        OneMoreRow(n, kind, windows, before, w.start, row, i - 1);
      }
    }
  }

  lemma OneMoreRow(n: Numerics, kind: WindowType, windows: seq<Window>, table: map<Time, Row>, t: Time, r: Row, i: nat)
    requires PartOfFull(n, kind, windows, table) && IsFullRow(n, kind, windows, t, r, i)
    ensures PartOfFull(n, kind, windows, table[t := r])
  {
  }

  // ----- later windows do not change earlier rows -----

  lemma {:induction false} FirstConfidentOfPrefix(s: seq<Sample>, m: nat, from: nat, i: nat)
    requires from <= i < m <= |s| && s[i].messages >= N_MIN
    ensures FirstConfident(s[..m], from) == FirstConfident(s, from) <= i
    decreases i - from
  {
    if s[from].messages < N_MIN { FirstConfidentOfPrefix(s, m, from + 1, i); }
  }

  lemma {:induction false} CarriedOfPrefix(n: Numerics, kind: WindowType, s: seq<Sample>, m: nat, i: nat)
    requires i <= m <= |s|
    ensures Carried(n, kind, s[..m], i) == Carried(n, kind, s, i)
  {
    if i > 0 { CarriedOfPrefix(n, kind, s, m, i - 1); }
  }

  /** The anchor is only used by windows after it, so a row depends on no later window. */
  lemma {:induction false} RowOfPrefix(n: Numerics, kind: WindowType, s: seq<Sample>, m: nat, i: nat, carried: real)
    requires i < m <= |s|
    ensures RowAt(n, kind, s[..m], i, carried) == RowAt(n, kind, s, i, carried)
  {
    hide KRecent, Recent, ExplorationRatio, ClassifyPhase;
    RecentOfPrefix(n.dist, s, m, i, KRecent(kind));
    if s[i].messages >= N_MIN { FirstConfidentOfPrefix(s, m, 0, i); }
  }

  lemma RecentOfPrefix(dist: (Vector, Vector) -> real, s: seq<Sample>, m: nat, i: nat, k: nat)
    requires i < m <= |s|
    ensures Recent(dist, s[..m], i, k) == Recent(dist, s, i, k)
  {
    if i + 1 >= k > 0 { assert s[..m][i + 1 - k..i + 1] == s[i + 1 - k..i + 1]; }
  }

  /** Row `i` is settled as soon as window `i` is there. */
  lemma FullRowOfPrefix(n: Numerics, kind: WindowType, windows: seq<Window>, m: nat, i: nat)
    requires i < m <= |windows|
    ensures FullRow(n, kind, windows[..m], i) == FullRow(n, kind, windows, i)
  {
    hide RowAt, Carried;
    var s := FullSeries(windows);
    assert FullSeries(windows[..m]) == s[..m];
    CarriedOfPrefix(n, kind, s, m, i);
    RowOfPrefix(n, kind, s, m, i, Carried(n, kind, s, i));
  }

  lemma PartOfFullOfPrefix(n: Numerics, kind: WindowType, windows: seq<Window>, m: nat, table: map<Time, Row>)
    requires m <= |windows| && PartOfFull(n, kind, windows[..m], table)
    ensures PartOfFull(n, kind, windows, table)
  {
    hide FullRow;
    forall t | t in table ensures exists i: nat :: IsFullRow(n, kind, windows, t, table[t], i) {
      var i: nat :| IsFullRow(n, kind, windows[..m], t, table[t], i);
      FullRowOfPrefix(n, kind, windows, m, i);
      assert IsFullRow(n, kind, windows, t, table[t], i);
    }
  }

  // ----- any sequence of runs -----

  /** A run that saw the first `seen` windows, ignored some stored rows, and got through `done` windows. */
  datatype Run = Run(seen: nat, ignored: set<Time>, done: nat)

  /** The window list only grows from run to run, up to `windows`. */
  ghost predicate Growing(runs: seq<Run>, windows: seq<Window>) {
    && (forall i :: 0 <= i < |runs| ==> runs[i].done <= runs[i].seen <= |windows|)
    && (forall i, j :: 0 <= i < j < |runs| ==> runs[i].seen <= runs[j].seen)
  }

  /** The table after the runs, in an era that starts with no rows. */
  function AfterRuns(n: Numerics, kind: WindowType, windows: seq<Window>, runs: seq<Run>): map<Time, Row> {
    if runs == [] then map[] else
      var r, before := runs[|runs| - 1], AfterRuns(n, kind, windows, runs[..|runs| - 1]);
      if r.seen > |windows| then before else AfterRun(n, kind, windows[..r.seen], before, r.ignored, r.done)
  }

  function Seen(runs: seq<Run>): nat { if runs == [] then 0 else runs[|runs| - 1].seen }

  /** After any growing sequence of runs, interrupted ones and full ones included, every stored row
    * is the row of a full recompute. */
  lemma {:induction false} EveryStoredRowIsFull(n: Numerics, kind: WindowType, windows: seq<Window>, runs: seq<Run>)
    requires DistinctStarts(windows) && Growing(runs, windows)
    ensures Seen(runs) <= |windows| && PartOfFull(n, kind, windows[..Seen(runs)], AfterRuns(n, kind, windows, runs))
  {
    hide FullRow, Upserted, IsFullRow;
    if runs != [] {
      var r, front := runs[|runs| - 1], runs[..|runs| - 1];
      EveryStoredRowIsFull(n, kind, windows, front);
      var before := AfterRuns(n, kind, windows, front);
      assert Seen(front) <= r.seen;
      assert windows[..r.seen][..Seen(front)] == windows[..Seen(front)];
      PartOfFullOfPrefix(n, kind, windows[..r.seen], Seen(front), before);
      UpsertsAreFull(n, kind, windows[..r.seen], before, Readable(before, r.ignored), r.done);
    }
  }

  /** Incremental equals full: once a run over the whole list completes, the table is exactly what
    * one recompute from nothing leaves. */
  lemma IncrementalIsFull(n: Numerics, kind: WindowType, windows: seq<Window>, runs: seq<Run>, ignored: set<Time>)
    requires DistinctStarts(windows) && Growing(runs, windows) && |windows| >= 2
    ensures AfterRun(n, kind, windows, AfterRuns(n, kind, windows, runs), ignored, |windows|) == AfterRun(n, kind, windows, map[], {}, |windows|)
  {
    hide FullRow, Upserted, IsFullRow;
    var table := AfterRuns(n, kind, windows, runs);
    EveryStoredRowIsFull(n, kind, windows, runs);
    PartOfFullOfPrefix(n, kind, windows, Seen(runs), table);
    UpsertsAreFull(n, kind, windows, table, Readable(table, ignored), |windows|);
    UpsertsAreFull(n, kind, windows, map[], map[], |windows|);
    SameTable(n, kind, windows,
      AfterRun(n, kind, windows, table, ignored, |windows|),
      AfterRun(n, kind, windows, map[], {}, |windows|));
  }

  lemma SameTable(n: Numerics, kind: WindowType, windows: seq<Window>, t: map<Time, Row>, u: map<Time, Row>)
    requires DistinctStarts(windows) && PartOfFull(n, kind, windows, t) && PartOfFull(n, kind, windows, u)
    requires forall j :: 0 <= j < |windows| ==> windows[j].start in t && windows[j].start in u
    ensures t == u
  {
    hide FullRow;
    forall k: Time ensures k in t <==> k in u {
      if k in t { var i: nat :| IsFullRow(n, kind, windows, k, t[k], i); }
      if k in u { var i: nat :| IsFullRow(n, kind, windows, k, u[k], i); }
    }
    forall k: Time | k in t && k in u ensures t[k] == u[k] {
      var i: nat :| IsFullRow(n, kind, windows, k, t[k], i);
      var j: nat :| IsFullRow(n, kind, windows, k, u[k], j);
      assert i == j;
    }
  }

  // ----- what the numbers mean -----

  ghost predicate IsMetric(dist: (Vector, Vector) -> real) {
    && (forall x: Vector, y: Vector :: dist(x, y) >= 0.0)
    && (forall x: Vector :: dist(x, x) == 0.0)
    && (forall x: Vector, y: Vector :: dist(x, y) == dist(y, x))
    && (forall x: Vector, y: Vector, z: Vector {:trigger dist(x, y), dist(y, z)} :: dist(x, z) <= dist(x, y) + dist(y, z))
  }

  /** The stored length is the sum of the consecutive distances of the confident windows so far. */
  function ConfidentTravel(dist: (Vector, Vector) -> real, windows: seq<Window>, i: nat): real
    requires i < |windows|
  {
    (if i == 0 then 0.0 else ConfidentTravel(dist, windows, i - 1)) +
    (if Sum(windows[i].counts) < N_MIN then 0.0
     else dist(Activation(windows[if i == 0 then 0 else i - 1].counts), Activation(windows[i].counts)))
  }

  lemma {:induction false} LengthIsConfidentTravel(n: Numerics, kind: WindowType, windows: seq<Window>, i: nat)
    requires i < |windows|
    ensures FullRow(n, kind, windows, i).length == ConfidentTravel(n.dist, windows, i)
  {
    hide Activation, RowAt;
    var s := FullSeries(windows);
    RowDescribesWindow(n, kind, s, i, Carried(n, kind, s, i));
    if i > 0 {
      LengthIsConfidentTravel(n, kind, windows, i - 1);
      RowDescribesWindow(n, kind, s, i - 1, Carried(n, kind, s, i - 1));
    }
  }

  /** Stored length never decreases along the windows. */
  lemma {:induction false} LengthNeverDecreases(n: Numerics, kind: WindowType, windows: seq<Window>, i: nat, j: nat)
    requires IsMetric(n.dist) && i <= j < |windows|
    ensures 0.0 <= FullRow(n, kind, windows, i).length <= FullRow(n, kind, windows, j).length
    decreases j
  {
    hide FullRow, Activation;
    if i < j {
      LengthNeverDecreases(n, kind, windows, i, j - 1);
      LengthIsConfidentTravel(n, kind, windows, j - 1);
      LengthIsConfidentTravel(n, kind, windows, j);
    } else {
      LengthIsConfidentTravel(n, kind, windows, i);
      if i > 0 {
        LengthNeverDecreases(n, kind, windows, i - 1, i - 1);
        LengthIsConfidentTravel(n, kind, windows, i - 1);
      }
    }
  }

  /** The straight distance is at most the path. */
  lemma {:induction false} PathIsNoShortcut(dist: (Vector, Vector) -> real, slice: seq<Sample>)
    requires IsMetric(dist) && slice != []
    ensures 0.0 <= dist(slice[0].vector, slice[|slice| - 1].vector) <= PathLength(dist, slice)
  {
    var k := |slice|;
    if k >= 2 {
      PathIsNoShortcut(dist, slice[..k - 1]);
      assert dist(slice[0].vector, slice[k - 1].vector) <= dist(slice[0].vector, slice[k - 2].vector) + dist(slice[k - 2].vector, slice[k - 1].vector);
    }
  }

  lemma FractionInUnit(d: real, l: real)
    requires 0.0 <= d <= l && l > 0.0
    ensures 0.0 <= d / l <= 1.0
  {
  }

  lemma {:induction false} RecentInUnit(dist: (Vector, Vector) -> real, s: seq<Sample>, i: nat, k: nat)
    requires IsMetric(dist) && i < |s| && k > 0
    ensures var r := Recent(dist, s, i, k).0;
      && (r.Some? ==> 0.0 <= r.value <= 1.0)
      && (r.Some? <==> i + 1 >= k && PathLength(dist, s[i + 1 - k..i + 1]) > 0.0)
  {
    hide IsMetric, PathLength, ClassifyPhase;
    if i + 1 >= k {
      var slice := s[i + 1 - k..i + 1];
      PathIsNoShortcut(dist, slice);
      var d, l := dist(slice[0].vector, slice[k - 1].vector), PathLength(dist, slice);
      if l > 0.0 { FractionInUnit(d, l); }
    }
  }

  /** Whenever the rolling ratio is defined it lies between 0 and 1; it is defined exactly for a
    * confident window with a full rolling slice that moved at all. */
  lemma {:induction false} RollingRatioInUnit(n: Numerics, kind: WindowType, windows: seq<Window>, i: nat)
    requires IsMetric(n.dist) && i < |windows|
    ensures var r := FullRow(n, kind, windows, i).recentRatio; r.Some? ==> 0.0 <= r.value <= 1.0
    ensures var k, s := KRecent(kind), FullSeries(windows);
      FullRow(n, kind, windows, i).recentRatio.Some? <==>
        Sum(windows[i].counts) >= N_MIN && i + 1 >= k && PathLength(n.dist, s[i + 1 - k..i + 1]) > 0.0
  {
    hide Activation, KRecent, IsMetric, Recent, ExplorationRatio, ClassifyPhase, PathLength, Anchor, Carried, Sum;
    AtLeastTwo(kind);
    RecentInUnit(n.dist, FullSeries(windows), i, KRecent(kind));
  }

  lemma AtLeastTwo(kind: WindowType)
    ensures KRecent(kind) >= 2
  {
  }

  // ----- a sliding horizon -----

  lemma {:induction false} FirstConfidentOfSuffix(s: seq<Sample>, d: nat, i: nat)
    requires d <= i < |s| && s[i].messages >= N_MIN && forall j :: 0 <= j < d ==> s[j].messages < N_MIN
    ensures FirstConfident(s, 0) == FirstConfident(s, d)
  {
    if d > 0 {
      FirstConfidentOfSuffix(s, d - 1, i);
      assert s[d - 1].messages < N_MIN;
    }
  }

  lemma {:induction false} FirstConfidentShifted(s: seq<Sample>, d: nat, from: nat, i: nat)
    requires d + from <= i < |s| && s[i].messages >= N_MIN
    ensures d + FirstConfident(s[d..], from) == FirstConfident(s, d + from)
    decreases i - from
  {
    if s[d + from].messages < N_MIN { FirstConfidentShifted(s, d, from + 1, i); }
  }

  lemma {:induction false} CarriedOfSuffix(n: Numerics, kind: WindowType, s: seq<Sample>, d: nat, i: nat)
    requires d <= i <= |s| && d < |s| && forall j :: 0 <= j < |s| ==> s[j].stored == None
    requires forall j :: 0 <= j <= d ==> s[j].messages < N_MIN
    ensures Carried(n, kind, s[d..], i - d) == Carried(n, kind, s, i)
    decreases i
  {
    if i > d {
      CarriedOfSuffix(n, kind, s, d, i - 1);
      assert s[i - 1].stored == None && s[d..][i - 1 - d] == s[i - 1];
      if i - 1 == d { assert s[d].messages < N_MIN; }
    } else if d > 0 {
      QuietCarriesNothing(n, kind, s, d);
    }
  }

  lemma {:induction false} QuietCarriesNothing(n: Numerics, kind: WindowType, s: seq<Sample>, d: nat)
    requires d <= |s| && forall j :: 0 <= j < d ==> s[j].messages < N_MIN && s[j].stored == None
    ensures Carried(n, kind, s, d) == 0.0
  {
    if d > 0 {
      QuietCarriesNothing(n, kind, s, d - 1);
      assert s[d - 1].messages < N_MIN;
    }
  }

  lemma {:induction false} RecentShifted(dist: (Vector, Vector) -> real, s: seq<Sample>, d: nat, i: nat, k: nat)
    requires d <= i < |s| && k > 0
    ensures Recent(dist, s[d..], i - d, k) == if i - d + 1 < k then (None, None) else Recent(dist, s, i, k)
  {
    hide PathLength, ExplorationRatio, ClassifyPhase;
    if i - d + 1 >= k {
      var late, early := s[d..][i - d + 1 - k..i - d + 1], s[i + 1 - k..i + 1];
      assert |late| == |early| && forall a :: 0 <= a < |late| ==> late[a] == early[a];
      assert late == early;
    }
  }

  lemma {:induction false} RowShifted(n: Numerics, kind: WindowType, s: seq<Sample>, d: nat, i: nat, carried: real)
    requires d <= i < |s| && forall j :: 0 <= j <= d ==> s[j].messages < N_MIN
    ensures var late, early := RowAt(n, kind, s[d..], i - d, carried), RowAt(n, kind, s, i, carried);
      late == if i - d + 1 < KRecent(kind) then early.(recentRatio := None, recentPhase := None) else early
  {
    hide KRecent, Recent, ExplorationRatio, ClassifyPhase;
    var k := KRecent(kind);
    AtLeastTwo(kind);
    RecentShifted(n.dist, s, d, i, k);
    if s[i].messages >= N_MIN {
      FirstConfidentOfSuffix(s, d, i);
      FirstConfidentShifted(s, d, 0, i);
      assert i > d;
    }
  }

  /** The horizon of a young vault moves with the date, so leading quiet windows drop off the list
    * within an era.  A recompute on the shorter list gives the same rows but for the rolling ratio
    * and phase, which become undefined for the first windows of the shorter list. */
  lemma QuietPrefixDropped(n: Numerics, kind: WindowType, windows: seq<Window>, d: nat, i: nat)
    requires d <= i < |windows| && forall j :: 0 <= j <= d ==> Sum(windows[j].counts) < N_MIN
    ensures var late, early := FullRow(n, kind, windows[d..], i - d), FullRow(n, kind, windows, i);
      late == if i - d + 1 < KRecent(kind) then early.(recentRatio := None, recentPhase := None) else early
  {
    hide Activation, KRecent, Sum, Carried, RowAt;
    var s := FullSeries(windows);
    assert FullSeries(windows[d..]) == s[d..];
    CarriedOfSuffix(n, kind, s, d, i);
    RowShifted(n, kind, s, d, i, Carried(n, kind, s, i));
  }
}
