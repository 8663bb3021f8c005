/** The window lists of the trajectory: where their grids start, when two lists are on one grid,
  * and what that does to runs on a horizon that moves. */
module FisherWindows {
  import opened Wrappers
  import opened SortedLabels
  import opened FisherTrajectory
  import opened FisherRuns

  // ----- the grid of a run -----

  /** Seconds. */
  const DAY: int := 86400
  const FALLBACK_HISTORY_DAYS: int := 365
  const MAX_HISTORY_DAYS: int := 3660

  /** `detect_history_days`: at least a year, at most ten, else a week more than the age. */
  function HistoryDays(now: Time, first: Time): int {
    var days := (now - first) / DAY + 7;
    if days < FALLBACK_HISTORY_DAYS then FALLBACK_HISTORY_DAYS else if days > MAX_HISTORY_DAYS then MAX_HISTORY_DAYS else days
  }

  function Midnight(t: Time): Time { t - t % DAY }

  /** Monday is 0; day 0 of the epoch is a Thursday. */
  function Weekday(t: Time): int { (t / DAY + 3) % 7 }

  /** The first start of a list. */
  function GridStart(kind: WindowType, now: Time, history: int): Time {
    var horizon := now - history * DAY;
    if kind == WeeklyStep then Midnight(horizon - Weekday(horizon) * DAY) else Midnight(horizon)
  }

  /** The latest start a list may have: before `now` for days, else one whole window before it. */
  function LastStart(kind: WindowType, now: Time): Time {
    match kind
    case Daily => now - 1
    case Monthly => now - 30 * DAY
    case _ => now - 7 * DAY
  }

  function StrideSeconds(kind: WindowType): (s: int)
    ensures s == DAY || s == 7 * DAY
  {
    Stride(kind) * DAY
  }

  function StartsFrom(from: Time, last: Time, stride: int): seq<Time>
    requires stride > 0
    decreases last - from + stride
  {
    if from > last then [] else [from] + StartsFrom(from + stride, last, stride)
  }

  function Starts(kind: WindowType, now: Time, history: int): seq<Time> {
    StartsFrom(GridStart(kind, now, history), LastStart(kind, now), StrideSeconds(kind))
  }

  /** `windows_for`, by its starts. */
  method WindowsFor(kind: WindowType, now: Time, history: int) returns (starts: seq<Time>)
    ensures starts == Starts(kind, now, history)
  {
    hide GridStart, LastStart, StrideSeconds;
    var d, last, stride := GridStart(kind, now, history), LastStart(kind, now), StrideSeconds(kind);
    starts := [];
    while d <= last
      invariant starts + StartsFrom(d, last, stride) == Starts(kind, now, history)
      decreases last - d + stride
    {
      assert starts + ([d] + StartsFrom(d + stride, last, stride)) == starts + [d] + StartsFrom(d + stride, last, stride);
      starts := starts + [d];
      d := d + stride;
    }
    assert starts + [] == starts;
  }

  // ----- where the grid starts -----

  /** A young vault's grid moves with the date, and a very old one's too.  In between it starts a week
    * before the first message, one day later when the time of day is before that message's. */
  lemma HorizonOfVault(kind: WindowType, now: Time, first: Time)
    requires kind != WeeklyStep && first <= now
    ensures var age, start := (now - first) / DAY + 7, GridStart(kind, now, HistoryDays(now, first));
      start == if age < FALLBACK_HISTORY_DAYS then Midnight(now) - 365 * DAY
               else if age > MAX_HISTORY_DAYS then Midnight(now) - 3660 * DAY
               else Midnight(first) - 7 * DAY + if now % DAY < first % DAY then DAY else 0
  {
  }

  /** A grid starts at the last midnight no later than the horizon, the weekly step grid at the last
    * midnight of a Monday. */
  lemma GridStartIs(kind: WindowType, now: Time, history: int)
    ensures var g, horizon := GridStart(kind, now, history), now - history * 86400;
      && g % 86400 == 0 && g <= horizon
      && (if kind == WeeklyStep then horizon < g + 7 * 86400 && (g / 86400) % 7 == 4 else horizon < g + 86400)
  {
    hide GridStart;
    var horizon := now - history * DAY;
    GridOf(kind, now, history);
    MidnightIsDay(horizon);
    DayOf(horizon);
    if kind == WeeklyStep {
      var w := Weekday(horizon);
      MidnightIsDay(horizon - w * DAY);
      DayBefore(horizon, w);
      Monday(horizon / DAY);
    }
  }

  lemma GridOf(kind: WindowType, now: Time, history: int)
    ensures var horizon := now - history * DAY;
      GridStart(kind, now, history) == if kind == WeeklyStep then Midnight(horizon - Weekday(horizon) * DAY) else Midnight(horizon)
  {
  }

  lemma DayOf(t: Time)
    ensures t / DAY * DAY <= t < t / DAY * DAY + DAY && (t / DAY * DAY) % DAY == 0 && t / DAY * DAY / DAY == t / DAY
  {
  }

  lemma DayBefore(t: Time, w: int)
    ensures (t - w * DAY) / DAY == t / DAY - w
    ensures ((t / DAY - w) * DAY) % DAY == 0 && (t / DAY - w) * DAY / DAY == t / DAY - w
  {
  }

  lemma Monday(d: int)
    ensures (d - (d + 3) % 7) % 7 == 4
  {
  }

  /** The starts of a list: from the grid's start on, day by day, or week by week for the weekly step and
    * the monthly list, as long as a day has begun, or a window of a week or of thirty days has ended. */
  lemma {:induction false} StartsAre(kind: WindowType, now: Time, history: int, t: Time)
    ensures var g := GridStart(kind, now, history);
      t in Starts(kind, now, history) <==>
        && t >= g && (t - g) % (if kind == Daily || kind == WeeklyRolling then 86400 else 604800) == 0
        && (if kind == Daily then t < now else if kind == Monthly then t + 30 * 86400 <= now else t + 7 * 86400 <= now)
  {
    hide GridStart;
    StartsAreGridPoints(GridStart(kind, now, history), LastStart(kind, now), StrideSeconds(kind), t);
  }

  /** Two grids share their points. */
  predicate Aligned(g: Time, g': Time, stride: int)
    requires stride > 0
  {
    (g' - g) % stride == 0
  }

  /** Daily and weekly grids of any two runs are aligned; monthly ones exactly if their first days are
    * whole weeks apart, since they start at the horizon and step by a week. */
  lemma GridsAlign(kind: WindowType, now: Time, history: int, now': Time, history': int)
    ensures var g, g' := GridStart(kind, now, history), GridStart(kind, now', history');
      && (kind != Monthly ==> Aligned(g, g', StrideSeconds(kind)))
      && (kind == Monthly ==> (Aligned(g, g', StrideSeconds(kind)) <==>
            ((now' - history' * DAY) / DAY - (now - history * DAY) / DAY) % 7 == 0))
  {
    hide Midnight, Weekday;
    MidnightsAlign(now - history * DAY, now' - history' * DAY);
    MondaysAlign(now - history * DAY, now' - history' * DAY);
  }

  lemma MidnightsAlign(h: Time, h': Time)
    ensures (Midnight(h') - Midnight(h)) % DAY == 0
    ensures (Midnight(h') - Midnight(h)) % (7 * DAY) == 0 <==> (h' / DAY - h / DAY) % 7 == 0
  {
    hide Midnight;
    MidnightIsDay(h);
    MidnightIsDay(h');
    WholeWeeks(h' / DAY - h / DAY);
  }

  lemma MondaysAlign(h: Time, h': Time)
    ensures (Midnight(h' - Weekday(h') * DAY) - Midnight(h - Weekday(h) * DAY)) % (7 * DAY) == 0
  {
    hide Midnight, Weekday;
    OnMonday(h);
    OnMonday(h');
    var k: int :| Midnight(h - Weekday(h) * DAY) == (7 * k + 4) * DAY;
    var k': int :| Midnight(h' - Weekday(h') * DAY) == (7 * k' + 4) * DAY;
    var q := k' - k;
    assert Midnight(h' - Weekday(h') * DAY) - Midnight(h - Weekday(h) * DAY) == q * 604800;
    Remainder(q * 604800, q, 0);
  }

  lemma MidnightIsDay(h: Time)
    ensures Midnight(h) == h / DAY * DAY
  {
  }

  lemma WholeWeeks(x: int)
    ensures (x * DAY) % (7 * DAY) == 0 <==> x % 7 == 0
    ensures (x * DAY) % DAY == 0
  {
    var q, r := x / 7, x % 7;
    assert x * 86400 == q * 604800 + r * 86400;
    Remainder(x * 86400, q, r * 86400);
  }

  lemma Remainder(a: int, q: int, r: int)
    requires a == q * 604800 + r && 0 <= r < 604800
    ensures a % 604800 == r
  {
  }

  lemma OnMonday(h: Time)
    ensures exists k: int :: Midnight(h - Weekday(h) * DAY) == (7 * k + 4) * DAY
  {
    var d := h / DAY;
    assert Midnight(h - Weekday(h) * DAY) == (d - (d + 3) % 7) * DAY;
    var k := (d + 3) / 7 - 1;
    assert d - (d + 3) % 7 == 7 * k + 4;
    assert Midnight(h - Weekday(h) * DAY) == (7 * k + 4) * DAY;
  }

  // ----- lists on one grid -----

  predicate IsStride(stride: int) { stride == DAY || stride == 7 * DAY }

  /** The starts are the grid points from `from` to `last`. */
  lemma {:induction false} StartsAreGridPoints(from: Time, last: Time, stride: int, t: Time)
    requires IsStride(stride)
    ensures t in StartsFrom(from, last, stride) <==> from <= t <= last && (t - from) % stride == 0
    decreases last - from + stride
  {
    if from <= last {
      StartsAreGridPoints(from + stride, last, stride, t);
      OneStrideOn(t - from, stride);
      assert StartsFrom(from, last, stride) == [from] + StartsFrom(from + stride, last, stride);
      assert t in StartsFrom(from, last, stride) <==> t == from || t in StartsFrom(from + stride, last, stride);
    }
  }

  lemma OneStrideOn(x: int, stride: int)
    requires IsStride(stride)
    ensures (x - stride) % stride == 0 <==> x % stride == 0
    ensures 0 <= x < stride ==> (x % stride == 0 <==> x == 0)
  {
    if stride == DAY { OneDayOn(x); } else { OneWeekOn(x); }
  }

  lemma OneDayOn(x: int)
    ensures (x - 86400) % 86400 == 0 <==> x % 86400 == 0
    ensures 0 <= x < 86400 ==> (x % 86400 == 0 <==> x == 0)
  {
  }

  lemma OneWeekOn(x: int)
    ensures (x - 604800) % 604800 == 0 <==> x % 604800 == 0
    ensures 0 <= x < 604800 ==> (x % 604800 == 0 <==> x == 0)
  {
  }

  lemma {:induction false} StartsAscend(from: Time, last: Time, stride: int)
    requires IsStride(stride)
    ensures Ascending(StartsFrom(from, last, stride))
    decreases last - from + stride
  {
    if from <= last {
      StartsAscend(from + stride, last, stride);
      var rest := StartsFrom(from + stride, last, stride);
      forall j | 0 <= j < |rest| ensures from < rest[j] {
        assert rest[j] in rest;
        StartsAreGridPoints(from + stride, last, stride, rest[j]);
      }
      FirstAscends(from, rest);
    }
  }

  lemma FirstAscends(x: Time, rest: seq<Time>)
    requires Ascending(rest) && forall j :: 0 <= j < |rest| ==> x < rest[j]
    ensures Ascending([x] + rest)
  {
  }

  /** Starting later on the same grid drops starts from the front. */
  lemma {:induction false} LaterStart(g: Time, g': Time, last: Time, stride: int) returns (d: nat)
    requires IsStride(stride) && g <= g' && Aligned(g, g', stride)
    ensures d <= |StartsFrom(g, last, stride)| && StartsFrom(g', last, stride) == StartsFrom(g, last, stride)[d..]
    ensures g' <= last ==> d < |StartsFrom(g, last, stride)|
    decreases g' - g
  {
    if g == g' || g > last {
      d := 0;
    } else {
      var rest := LaterStart(g + stride, g', last, stride);
      d := rest + 1;
    }
  }

  /** Ending later on the same grid appends starts at the back. */
  lemma {:induction false} LaterEnd(g: Time, last: Time, last': Time, stride: int)
    requires IsStride(stride) && last <= last'
    ensures StartsFrom(g, last, stride) <= StartsFrom(g, last', stride)
    decreases last - g + stride
  {
    if g <= last { LaterEnd(g + stride, last, last', stride); }
  }

  /** A list that overlaps a later one in time goes over into it by dropping starts in front and
    * appending starts behind exactly if the stride divides the shift of the grid; otherwise the two
    * have no start in common. */
  lemma {:induction false} SlidesIffAligned(g: Time, last: Time, g': Time, last': Time, stride: int)
    requires IsStride(stride) && g <= g' <= last <= last'
    ensures var s, s' := StartsFrom(g, last, stride), StartsFrom(g', last', stride);
      && (Aligned(g, g', stride) <==> exists d: nat :: d < |s| && s[d..] <= s')
      && (!Aligned(g, g', stride) ==> forall t :: t in s ==> t !in s')
  {
    hide StartsFrom, Aligned;
    var s, s' := StartsFrom(g, last, stride), StartsFrom(g', last', stride);
    if Aligned(g, g', stride) {
      var d := LaterStart(g, g', last, stride);
      LaterEnd(g', last, last', stride);
      assert s[d..] <= s';
    } else {
      forall t | t in s ensures t !in s' { MisalignedIsDisjoint(g, last, g', last', stride, t); }
      forall d: nat | d < |s| ensures !(s[d..] <= s') { NotInPrefix(s, s', d); }
    }
  }

  lemma NotInPrefix(s: seq<Time>, s': seq<Time>, d: nat)
    requires d < |s| && forall t :: t in s ==> t !in s'
    ensures !(s[d..] <= s')
  {
    assert s[d] in s && s[d..][0] == s[d];
  }

  lemma {:induction false} MisalignedIsDisjoint(g: Time, last: Time, g': Time, last': Time, stride: int, t: Time)
    requires IsStride(stride) && !Aligned(g, g', stride)
    ensures !(t in StartsFrom(g, last, stride) && t in StartsFrom(g', last', stride))
  {
    hide StartsFrom;
    StartsAreGridPoints(g, last, stride, t);
    StartsAreGridPoints(g', last', stride, t);
    Residues(t - g, t - g');
  }

  lemma Residues(x: int, y: int)
    ensures x % DAY == 0 && y % DAY == 0 ==> (x - y) % DAY == 0
    ensures x % (7 * DAY) == 0 && y % (7 * DAY) == 0 ==> (x - y) % (7 * DAY) == 0
  {
    WholeWeeks(x / DAY - y / DAY);
    WholePeriods(x / (7 * DAY) - y / (7 * DAY));
  }

  lemma WholePeriods(q: int)
    ensures (q * (7 * DAY)) % (7 * DAY) == 0
  {
  }

  // ----- lists as slices of one grid -----

  /** The counts of a window are fixed within an era. */
  function WindowsAt(starts: seq<Time>, counts: Time -> seq<nat>): seq<Window> {
    seq(|starts|, i requires 0 <= i < |starts| => Window(starts[i], counts(starts[i])))
  }

  /** The list of a run, cut out of any longer list on its grid. */
  lemma {:induction false} ListIsSlice(kind: WindowType, now: Time, history: int, g: Time, last: Time, counts: Time -> seq<nat>)
      returns (lo: nat, hi: nat)
    requires g <= GridStart(kind, now, history) && LastStart(kind, now) <= last
    requires Aligned(g, GridStart(kind, now, history), StrideSeconds(kind))
    ensures var all := WindowsAt(StartsFrom(g, last, StrideSeconds(kind)), counts);
      DistinctStarts(all) && lo <= hi <= |all| && WindowsAt(Starts(kind, now, history), counts) == all[lo..hi]
  {
    hide GridStart, LastStart, StrideSeconds, Aligned;
    var stride, starts := StrideSeconds(kind), StartsFrom(g, last, StrideSeconds(kind));
    StartsAscend(g, last, stride);
    LaterEnd(g, LastStart(kind, now), last, stride);
    lo := LaterStart(g, GridStart(kind, now, history), LastStart(kind, now), stride);
    hi := |StartsFrom(g, LastStart(kind, now), stride)|;
    assert StartsFrom(g, LastStart(kind, now), stride) == starts[..hi];
    assert Starts(kind, now, history) == starts[..hi][lo..];
    assert starts[..hi][lo..] == starts[lo..hi];
  }

  // ----- runs on slices of one grid -----

  /** A run on `windows[lo..hi]` that ignored some stored rows and got through `done` windows. */
  datatype SlidRun = SlidRun(lo: nat, hi: nat, ignored: set<Time>, done: nat)

  function WithoutRecent(r: Row): Row { r.(recentRatio := None, recentPhase := None) }

  /** `r` is the full row of window `j`; if the window is among the first after some list's front, it
    * may lack the rolling ratio and phase. */
  ghost predicate IsSlidRow(n: Numerics, kind: WindowType, windows: seq<Window>, front: nat, t: Time, r: Row, j: nat) {
    && j < |windows| && windows[j].start == t
    && (r == FullRow(n, kind, windows, j) || (j + 1 < front + KRecent(kind) && r == WithoutRecent(FullRow(n, kind, windows, j))))
  }

  ghost predicate SlidPart(n: Numerics, kind: WindowType, windows: seq<Window>, front: nat, table: map<Time, Row>) {
    forall t :: t in table ==> exists j: nat :: IsSlidRow(n, kind, windows, front, t, table[t], j)
  }

  /** No window up to the latest front has enough messages. */
  ghost predicate QuietFront(windows: seq<Window>, front: nat) { forall j :: 0 <= j <= front && j < |windows| ==> Sum(windows[j].counts) < N_MIN }

  lemma {:induction false} SlidStandsIn(n: Numerics, kind: WindowType, windows: seq<Window>, front: nat, table: map<Time, Row>, i: nat)
    requires DistinctStarts(windows) && SlidPart(n, kind, windows, front, table) && i < |windows|
    ensures SampleOf(windows[i], table).(stored := None) == FullSeries(windows)[i]
    ensures SampleOf(windows[i], table).stored == if windows[i].start in table then Some(Carried(n, kind, FullSeries(windows), i + 1)) else None
  {
    hide RowAt, KRecent;
    var t := windows[i].start;
    FullLength(n, kind, windows, i);
    if t in table {
      var j: nat :| IsSlidRow(n, kind, windows, front, t, table[t], j);
      assert j == i;
      RowDescribesWindow(n, kind, FullSeries(windows), i, Carried(n, kind, FullSeries(windows), i));
    }
  }

  lemma FullLength(n: Numerics, kind: WindowType, windows: seq<Window>, i: nat)
    requires i < |windows|
    ensures FullRow(n, kind, windows, i).length == Carried(n, kind, FullSeries(windows), i + 1)
  {
    hide RowAt, Activation;
    RowDescribesWindow(n, kind, FullSeries(windows), i, Carried(n, kind, FullSeries(windows), i));
  }

  /** The length carried through a slice is the one carried through the whole grid. */
  lemma {:induction false} SlidCarried(n: Numerics, kind: WindowType, windows: seq<Window>, front: nat, table: map<Time, Row>, lo: nat, hi: nat, i: nat)
    requires DistinctStarts(windows) && SlidPart(n, kind, windows, front, table) && QuietFront(windows, front)
    requires lo <= front && lo + i <= hi <= |windows|
    ensures Carried(n, kind, SeriesOf(windows[lo..hi], table), i) == Carried(n, kind, FullSeries(windows), lo + i)
  {
    hide RowAt, Activation, SampleOf, SlidPart, FullRow, Sum;
    var full, series := FullSeries(windows), SeriesOf(windows[lo..hi], table);
    if i == 0 {
      QuietIsFull(windows, front);
      QuietCarriesNothing(n, kind, full, lo);
    } else {
      var j := lo + i - 1;
      SlidCarried(n, kind, windows, front, table, lo, hi, i - 1);
      SlidStandsIn(n, kind, windows, front, table, j);
      SliceSample(windows, lo, hi, table, i - 1);
      if i > 1 {
        SlidStandsIn(n, kind, windows, front, table, j - 1);
        SliceSample(windows, lo, hi, table, i - 2);
      } else {
        QuietIsFull(windows, front);
      }
      FullIsUnstored(windows, j);
    }
  }

  lemma SliceSample(windows: seq<Window>, lo: nat, hi: nat, table: map<Time, Row>, a: nat)
    requires lo + a < hi <= |windows|
    ensures SeriesOf(windows[lo..hi], table)[a] == SampleOf(windows[lo + a], table)
  {
  }

  lemma SampleFacts(w: Window, table: map<Time, Row>)
    ensures SampleOf(w, table).start == w.start && (SampleOf(w, table).stored.Some? <==> w.start in table)
  {
  }

  lemma QuietIsFull(windows: seq<Window>, front: nat)
    requires QuietFront(windows, front)
    ensures forall j :: 0 <= j <= front && j < |windows| ==> FullSeries(windows)[j].messages < N_MIN && FullSeries(windows)[j].stored == None
  {
    hide Sum;
  }

  lemma FullIsUnstored(windows: seq<Window>, j: nat)
    requires j < |windows|
    ensures FullSeries(windows)[j].stored == None
  {
  }

  /** The row a run on a slice computes. */
  lemma {:induction false} SlidRow(n: Numerics, kind: WindowType, windows: seq<Window>, front: nat, table: map<Time, Row>, lo: nat, hi: nat, i: nat)
    requires DistinctStarts(windows) && SlidPart(n, kind, windows, front, table) && QuietFront(windows, front)
    requires lo <= front && lo + i < hi <= |windows|
    ensures var series := SeriesOf(windows[lo..hi], table);
      IsSlidRow(n, kind, windows, front, windows[lo + i].start, RowAt(n, kind, series, i, Carried(n, kind, series, i)), lo + i)
  {
    hide RowAt, Carried, KRecent, Activation, Sum;
    var full, series := FullSeries(windows), SeriesOf(windows[lo..hi], table);
    var l := Carried(n, kind, full, lo + i);
    SlidCarried(n, kind, windows, front, table, lo, hi, i);
    var slice := full[..hi][lo..];
    forall a | 0 <= a < |series| ensures series[a].(stored := None) == slice[a].(stored := None) {
      SlidStandsIn(n, kind, windows, front, table, lo + a);
      SliceSample(windows, lo, hi, table, a);
    }
    RowSame(n, kind, series, slice, i, l);
    RowShifted(n, kind, full[..hi], lo, lo + i, l);
    RowOfPrefix(n, kind, full, hi, lo + i, l);
  }

  lemma {:induction false} SlidUpserts(n: Numerics, kind: WindowType, windows: seq<Window>, front: nat, table: map<Time, Row>, existing: map<Time, Row>,
                                       lo: nat, hi: nat, i: nat)
    requires DistinctStarts(windows) && QuietFront(windows, front) && lo <= front && lo + i <= hi <= |windows|
    requires SlidPart(n, kind, windows, front, table) && SlidPart(n, kind, windows, front, existing) && existing.Keys <= table.Keys
    ensures var u := Upserted(n, kind, SeriesOf(windows[lo..hi], existing), table, i);
      SlidPart(n, kind, windows, front, u) && table.Keys <= u.Keys && forall j :: lo <= j < lo + i ==> windows[j].start in u
  {
    hide RowAt, Carried, QuietFront, SlidPart, IsSlidRow, SampleOf;
    if i > 0 {
      SlidUpserts(n, kind, windows, front, table, existing, lo, hi, i - 1);
      var series, w := SeriesOf(windows[lo..hi], existing), windows[lo + i - 1];
      var before := Upserted(n, kind, series, table, i - 1);
      SliceSample(windows, lo, hi, existing, i - 1);
      SampleFacts(w, existing);
      if series[i - 1].stored.None? {
        var row := RowAt(n, kind, series, i - 1, Carried(n, kind, series, i - 1));
        SlidRow(n, kind, windows, front, existing, lo, hi, i - 1);
        OneMoreSlidRow(n, kind, windows, front, before, w.start, row, lo + i - 1);
      }
    }
  }

  lemma {:induction false} OneMoreSlidRow(n: Numerics, kind: WindowType, windows: seq<Window>, front: nat, table: map<Time, Row>, t: Time, r: Row, j: nat)
    requires SlidPart(n, kind, windows, front, table) && IsSlidRow(n, kind, windows, front, t, r, j)
    ensures SlidPart(n, kind, windows, front, table[t := r])
  {
    hide IsSlidRow;
  }

  ghost predicate SlidWithin(runs: seq<SlidRun>, windows: seq<Window>, front: nat) {
    forall i :: 0 <= i < |runs| ==> runs[i].lo <= front && runs[i].lo + runs[i].done <= runs[i].hi <= |windows|
  }

  /** The table after runs on slices of one grid, in an era that starts with no rows. */
  ghost function AfterSlidRuns(n: Numerics, kind: WindowType, windows: seq<Window>, front: nat, runs: seq<SlidRun>): map<Time, Row>
    requires SlidWithin(runs, windows, front)
  {
    if runs == [] then map[] else
      var r := runs[|runs| - 1];
      AfterRun(n, kind, windows[r.lo..r.hi], AfterSlidRuns(n, kind, windows, front, runs[..|runs| - 1]), r.ignored, r.done)
  }

  /** On one grid, with quiet windows up to the latest front, any runs, whichever way the front moved,
    * interrupted or full, leave rows of one full recompute, but for the rolling ratio and phase of
    * windows less than a rolling slice behind that front. */
  lemma {:induction false} SlidRunsAreFull(n: Numerics, kind: WindowType, windows: seq<Window>, front: nat, runs: seq<SlidRun>)
    requires DistinctStarts(windows) && QuietFront(windows, front) && SlidWithin(runs, windows, front)
    ensures SlidPart(n, kind, windows, front, AfterSlidRuns(n, kind, windows, front, runs))
  {
    hide Upserted, IsSlidRow, QuietFront;
    if runs != [] {
      var r, before := runs[|runs| - 1], runs[..|runs| - 1];
      SlidRunsAreFull(n, kind, windows, front, before);
      var table := AfterSlidRuns(n, kind, windows, front, before);
      SlidUpserts(n, kind, windows, front, table, Readable(table, r.ignored), r.lo, r.hi, r.done);
    }
  }

  /** After such runs, a completed run agrees with a recompute of its own list in every row but for the
    * rolling ratio and phase, and wholly once a rolling slice has passed the latest front. */
  lemma {:induction false} SlidRunAgrees(n: Numerics, kind: WindowType, windows: seq<Window>, front: nat, runs: seq<SlidRun>,
                                         lo: nat, hi: nat, ignored: set<Time>, j: nat)
    requires DistinctStarts(windows) && QuietFront(windows, front) && SlidWithin(runs, windows, front)
    requires lo <= front && lo + 2 <= hi <= |windows| && lo <= j < hi
    ensures var list, t := windows[lo..hi], windows[j].start;
      var table := AfterRun(n, kind, list, AfterSlidRuns(n, kind, windows, front, runs), ignored, |list|);
      && t in table && WithoutRecent(table[t]) == WithoutRecent(FullRow(n, kind, list, j - lo))
      && (j + 1 >= front + KRecent(kind) ==> table[t] == FullRow(n, kind, list, j - lo))
  {
    hide Upserted, FullRow, KRecent, QuietFront, WithoutRecent;
    var list, before, t := windows[lo..hi], AfterSlidRuns(n, kind, windows, front, runs), windows[j].start;
    SlidRunsAreFull(n, kind, windows, front, runs);
    SlidUpserts(n, kind, windows, front, before, Readable(before, ignored), lo, hi, |list|);
    var table := AfterRun(n, kind, list, before, ignored, |list|);
    var k: nat :| IsSlidRow(n, kind, windows, front, t, table[t], k);
    assert k == j;
    SliceRow(n, kind, windows, front, lo, hi, j);
    RecentGone(FullRow(n, kind, windows, j));
  }

  lemma RecentGone(r: Row)
    ensures WithoutRecent(WithoutRecent(r)) == WithoutRecent(r)
  {
  }

  /** The row a recompute of a slice writes. */
  lemma {:induction false} SliceRow(n: Numerics, kind: WindowType, windows: seq<Window>, front: nat, lo: nat, hi: nat, j: nat)
    requires QuietFront(windows, front) && lo <= front && lo <= j < hi <= |windows|
    ensures var full := FullRow(n, kind, windows, j);
      FullRow(n, kind, windows[lo..hi], j - lo) == if j - lo + 1 < KRecent(kind) then WithoutRecent(full) else full
  {
    hide FullRow, KRecent;
    assert windows[..hi][lo..] == windows[lo..hi];
    FullRowOfPrefix(n, kind, windows, hi, j);
    QuietPrefixDropped(n, kind, windows[..hi], lo, j);
  }

  /** Said of the clock: two runs of one era on aligned grids, before either of whose fronts nothing
    * happened, leave rows that agree with a recompute at the second clock but for the rolling ratio
    * and phase, and agree in full once a rolling slice lies behind the later front. */
  lemma {:induction false} TwoClocksAgree(n: Numerics, kind: WindowType, now: Time, history: int, now': Time, history': int,
                                          counts: Time -> seq<nat>, i: nat)
    requires Aligned(GridStart(kind, now, history), GridStart(kind, now', history'), StrideSeconds(kind))
    requires forall t :: t <= GridStart(kind, now, history) || t <= GridStart(kind, now', history') ==> Sum(counts(t)) < N_MIN
    requires 2 <= |Starts(kind, now', history')| && i < |Starts(kind, now', history')|
    ensures var v, w := WindowsAt(Starts(kind, now, history), counts), WindowsAt(Starts(kind, now', history'), counts);
      var table := AfterRun(n, kind, w, AfterRun(n, kind, v, map[], {}, |v|), {}, |w|);
      && w[i].start in table && WithoutRecent(table[w[i].start]) == WithoutRecent(FullRow(n, kind, w, i))
      && (w[i].start >= Later(GridStart(kind, now, history), GridStart(kind, now', history')) + (KRecent(kind) - 1) * StrideSeconds(kind) ==>
            table[w[i].start] == FullRow(n, kind, w, i))
  {
    hide AfterRun, FullRow, WithoutRecent, KRecent, LastStart, GridStart, Aligned, StrideSeconds, StartsFrom, Starts;
    var g, g', stride := GridStart(kind, now, history), GridStart(kind, now', history'), StrideSeconds(kind);
    var from := if g <= g' then g else g';
    var last := if LastStart(kind, now) >= LastStart(kind, now') then LastStart(kind, now) else LastStart(kind, now');
    AlignedBothWays(g, g', stride);
    var lo, hi := ListIsSlice(kind, now, history, from, last, counts);
    var lo', hi' := ListIsSlice(kind, now', history', from, last, counts);
    var starts := StartsFrom(from, last, stride);
    var all := WindowsAt(starts, counts);
    StartsAscend(from, last, stride);
    FirstStart(kind, now', history');
    assert WindowsAt(Starts(kind, now', history'), counts)[0] == all[lo'..hi'][0] == all[lo'];
    QuietUpTo(starts, counts, lo');
    if hi - lo >= 2 {
      assert |Starts(kind, now, history)| >= 2;
      FirstStart(kind, now, history);
      assert WindowsAt(Starts(kind, now, history), counts)[0] == all[lo..hi][0] == all[lo];
      QuietUpTo(starts, counts, lo);
    }
    TwoSlicesAgree(n, kind, all, lo, hi, lo', hi', i);
    var j := lo' + i;
    assert WindowsAt(Starts(kind, now', history'), counts)[i] == all[lo'..hi'][i] == all[j];
    BehindFront(from, last, stride, j, lo', KRecent(kind) - 1);
    if hi - lo >= 2 { BehindFront(from, last, stride, j, lo, KRecent(kind) - 1); }
  }

  function Later(g: Time, g': Time): Time { if g <= g' then g' else g }

  lemma {:induction false} StartAt(from: Time, last: Time, stride: int, j: nat)
    requires IsStride(stride) && j < |StartsFrom(from, last, stride)|
    ensures StartsFrom(from, last, stride)[j] == from + j * stride
    decreases j
  {
    if j > 0 {
      StartAt(from + stride, last, stride, j - 1);
      assert from + stride + (j - 1) * stride == from + j * stride;
    }
  }

  lemma BehindFront(from: Time, last: Time, stride: int, j: nat, front: nat, k: int)
    requires IsStride(stride) && j < |StartsFrom(from, last, stride)| && front < |StartsFrom(from, last, stride)|
    ensures StartsFrom(from, last, stride)[j] >= StartsFrom(from, last, stride)[front] + k * stride ==> j >= front + k
  {
    hide StartsFrom;
    StartAt(from, last, stride, j);
    StartAt(from, last, stride, front);
  }

  lemma QuietUpTo(starts: seq<Time>, counts: Time -> seq<nat>, k: nat)
    requires Ascending(starts) && k < |starts| && forall t :: t <= starts[k] ==> Sum(counts(t)) < N_MIN
    ensures QuietFront(WindowsAt(starts, counts), k)
  {
    hide Sum;
  }

  lemma {:induction false} TwoSlicesAgree(n: Numerics, kind: WindowType, all: seq<Window>, lo: nat, hi: nat, lo': nat, hi': nat, i: nat)
    requires DistinctStarts(all) && lo <= hi <= |all| && lo' + 2 <= hi' <= |all| && lo' + i < hi'
    requires QuietFront(all, lo') && (hi - lo >= 2 ==> QuietFront(all, lo))
    ensures var v, w := all[lo..hi], all[lo'..hi'];
      var table := AfterRun(n, kind, w, AfterRun(n, kind, v, map[], {}, |v|), {}, |w|);
      && w[i].start in table && WithoutRecent(table[w[i].start]) == WithoutRecent(FullRow(n, kind, w, i))
      && (lo' + i + 1 >= (if hi - lo >= 2 && lo > lo' then lo else lo') + KRecent(kind) ==> table[w[i].start] == FullRow(n, kind, w, i))
  {
    hide Upserted, FullRow, WithoutRecent, KRecent, Sum;
    var v, w := all[lo..hi], all[lo'..hi'];
    assert w[i] == all[lo' + i];
    if |v| < 2 {
      SlidRunAgrees(n, kind, all, lo', [], lo', hi', {}, lo' + i);
    } else {
      var front, runs := if lo <= lo' then lo' else lo, [SlidRun(lo, hi, {}, |v|)];
      assert runs[..0] == [];
      SlidRunAgrees(n, kind, all, front, runs, lo', hi', {}, lo' + i);
    }
  }

  lemma FirstStart(kind: WindowType, now: Time, history: int)
    requires Starts(kind, now, history) != []
    ensures Starts(kind, now, history)[0] == GridStart(kind, now, history)
  {
  }

  lemma AlignedBothWays(g: Time, g': Time, stride: int)
    requires IsStride(stride) && Aligned(g, g', stride)
    ensures Aligned(g', g, stride) && Aligned(g, g, stride) && Aligned(g', g', stride)
  {
  }

  // ----- a front that is not quiet -----

  /** A list that has lost windows with travel restarts its length there. */
  lemma {:induction false} DroppedTravel(dist: (Vector, Vector) -> real, windows: seq<Window>, d: nat, i: nat)
    requires IsMetric(dist) && d <= i < |windows|
    ensures ConfidentTravel(dist, windows[d..], i - d) == ConfidentTravel(dist, windows, i) - ConfidentTravel(dist, windows, d)
  {
    hide Activation, Sum;
    if i > d { DroppedTravel(dist, windows, d, i - 1); }
  }

  lemma {:induction false} CarriedOn(n: Numerics, kind: WindowType, windows: seq<Window>, m: nat, d: nat, i: nat)
    requires DistinctStarts(windows) && d < m <= |windows| && 2 <= m && d < i <= |windows|
    ensures var table := AfterRun(n, kind, windows[..m], map[], {}, m);
      Carried(n, kind, SeriesOf(windows[d..], table), i - d) == Carried(n, kind, FullSeries(windows), i)
  {
    hide RowAt, Activation, Upserted, SampleOf, FullRow, PartOfFull;
    assert windows[d..|windows|] == windows[d..];
    var table := AfterRun(n, kind, windows[..m], map[], {}, m);
    var full, series := FullSeries(windows), SeriesOf(windows[d..], table);
    UpsertsAreFull(n, kind, windows[..m], map[], map[], m) by { NoRows(n, kind, windows[..m]); }
    PartOfFullOfPrefix(n, kind, windows, m, table);
    PartIsSlid(n, kind, windows, table);
    SlidStandsIn(n, kind, windows, 0, table, i - 1);
    SliceSample(windows, d, |windows|, table, i - 1 - d);
    FullIsUnstored(windows, i - 1);
    if i > m {
      CarriedOn(n, kind, windows, m, d, i - 1);
      SlidStandsIn(n, kind, windows, 0, table, i - 2);
      SliceSample(windows, d, |windows|, table, i - 2 - d);
    } else {
      assert windows[..m][i - 1].start == windows[i - 1].start;
    }
  }

  lemma NoRows(n: Numerics, kind: WindowType, windows: seq<Window>)
    ensures PartOfFull(n, kind, windows, map[])
  {
  }

  lemma {:induction false} PartIsSlid(n: Numerics, kind: WindowType, windows: seq<Window>, table: map<Time, Row>)
    requires PartOfFull(n, kind, windows, table)
    ensures SlidPart(n, kind, windows, 0, table)
  {
    hide FullRow, KRecent;
    forall t | t in table ensures exists j: nat :: IsSlidRow(n, kind, windows, 0, t, table[t], j) {
      var j: nat :| IsFullRow(n, kind, windows, t, table[t], j);
      assert IsSlidRow(n, kind, windows, 0, t, table[t], j);
    }
  }

  /** A run on a list that has dropped `d` windows goes on from the stored lengths, a recompute of that
    * list does not: for a new window they agree exactly if nothing was travelled up to the new front. */
  lemma {:induction false} SlidLengthIff(n: Numerics, kind: WindowType, windows: seq<Window>, m: nat, d: nat, i: nat)
    requires IsMetric(n.dist) && DistinctStarts(windows) && d < m <= i < |windows| && 2 <= m
    ensures var table := AfterRun(n, kind, windows[..m], map[], {}, m);
      var series := SeriesOf(windows[d..], table);
      (RowAt(n, kind, series, i - d, Carried(n, kind, series, i - d)).length == FullRow(n, kind, windows[d..], i - d).length <==>
         ConfidentTravel(n.dist, windows, d) == 0.0)
  {
    hide RowAt, Activation, Upserted, ConfidentTravel, Carried, IsMetric;
    var table := AfterRun(n, kind, windows[..m], map[], {}, m);
    var full, series := FullSeries(windows), SeriesOf(windows[d..], table);
    UpsertsAreFull(n, kind, windows[..m], map[], map[], m);
    PartOfFullOfPrefix(n, kind, windows, m, table);
    CarriedOn(n, kind, windows, m, d, i);
    StoredStandsIn(n, kind, windows, table, i);
    StoredStandsIn(n, kind, windows, table, i - 1);
    RowDescribesWindow(n, kind, series, i - d, Carried(n, kind, series, i - d));
    RowDescribesWindow(n, kind, full, i, Carried(n, kind, full, i));
    LengthIsConfidentTravel(n, kind, windows, i);
    LengthIsConfidentTravel(n, kind, windows[d..], i - d);
    DroppedTravel(n.dist, windows, d, i);
  }

  // ----- lists on different grids -----

  /** What one recompute of a list leaves. */
  function Recompute(n: Numerics, kind: WindowType, windows: seq<Window>): map<Time, Row> { AfterRun(n, kind, windows, map[], {}, |windows|) }

  lemma {:induction false} UpsertsOnTop(n: Numerics, kind: WindowType, series: seq<Sample>, table: map<Time, Row>, i: nat)
    requires i <= |series|
    ensures Upserted(n, kind, series, table, i) == table + Upserted(n, kind, series, map[], i)
  {
    hide RowAt, Carried;
    if i > 0 { UpsertsOnTop(n, kind, series, table, i - 1); }
  }

  /** A run on a list none of whose starts is stored takes nothing over: it adds the recompute of its
    * own list to whatever rows are there, and they stay. */
  lemma {:induction false} DisjointRunAdds(n: Numerics, kind: WindowType, windows: seq<Window>, table: map<Time, Row>, ignored: set<Time>)
    requires |windows| >= 2 && forall i :: 0 <= i < |windows| ==> windows[i].start !in table
    ensures AfterRun(n, kind, windows, table, ignored, |windows|) == table + Recompute(n, kind, windows)
  {
    hide RowAt, Carried, Upserted, Activation;
    assert SeriesOf(windows, Readable(table, ignored)) == SeriesOf(windows, map[]);
    UpsertsOnTop(n, kind, SeriesOf(windows, map[]), table, |windows|);
  }

  /** Two runs of one era on grids that are not aligned leave the rows of both grids: the table is the
    * union of two recomputes, and not the recompute of the later list. */
  lemma {:induction false} MisalignedRunsMix(n: Numerics, kind: WindowType, g: Time, last: Time, g': Time, last': Time, counts: Time -> seq<nat>)
    requires g <= g' <= last <= last' && !Aligned(g, g', StrideSeconds(kind))
    requires |StartsFrom(g, last, StrideSeconds(kind))| >= 2 && |StartsFrom(g', last', StrideSeconds(kind))| >= 2
    ensures var v, w := WindowsAt(StartsFrom(g, last, StrideSeconds(kind)), counts), WindowsAt(StartsFrom(g', last', StrideSeconds(kind)), counts);
      var table := AfterRun(n, kind, w, AfterRun(n, kind, v, map[], {}, |v|), {}, |w|);
      && table == Recompute(n, kind, v) + Recompute(n, kind, w)
      && g in table && g !in Recompute(n, kind, w) && table != Recompute(n, kind, w)
  {
    hide Upserted, FullRow;
    var stride := StrideSeconds(kind);
    var s, s' := StartsFrom(g, last, stride), StartsFrom(g', last', stride);
    var v, w := WindowsAt(s, counts), WindowsAt(s', counts);
    SlidesIffAligned(g, last, g', last', stride);
    StartsAscend(g, last, stride);
    StartsAscend(g', last', stride);
    UpsertsAreFull(n, kind, v, map[], map[], |v|);
    UpsertsAreFull(n, kind, w, map[], map[], |w|);
    RowsOfList(n, kind, v, Recompute(n, kind, v));
    RowsOfList(n, kind, w, Recompute(n, kind, w));
    assert s[0] == g && v[0].start == g;
    forall i | 0 <= i < |w| ensures w[i].start !in Recompute(n, kind, v) { assert s'[i] in s'; }
    DisjointRunAdds(n, kind, w, Recompute(n, kind, v), {});
  }

  lemma {:induction false} RowsOfList(n: Numerics, kind: WindowType, windows: seq<Window>, table: map<Time, Row>)
    requires PartOfFull(n, kind, windows, table)
    ensures forall t :: t in table ==> exists i: nat :: i < |windows| && windows[i].start == t
  {
    hide FullRow;
    forall t | t in table ensures exists i: nat :: i < |windows| && windows[i].start == t {
      var i: nat :| IsFullRow(n, kind, windows, t, table[t], i);
    }
  }

  /** It happens to monthly windows within a day: the first message came at noon; a run at noon 400
    * days later and one at eleven the next morning keep the same number of days of history, but
    * their horizons fall on neighbouring dates. */
  lemma MonthlyGridsFlip(first: Time)
    requires first % DAY == 12 * 3600
    ensures var now := first + 400 * DAY; var now' := now + 23 * 3600;
      && HistoryDays(now, first) == HistoryDays(now', first) == 407
      && GridStart(Monthly, now', 407) == GridStart(Monthly, now, 407) + DAY
      && GridStart(Monthly, now', 407) + 7 * DAY <= LastStart(Monthly, now) <= LastStart(Monthly, now')
      && !Aligned(GridStart(Monthly, now, 407), GridStart(Monthly, now', 407), StrideSeconds(Monthly))
  {
    var q, now, now' := first / DAY, first + 400 * DAY, first + 400 * DAY + 23 * 3600;
    assert first == q * DAY + 12 * 3600;
    OnDay(400, 0, now - first);
    OnDay(400, 23 * 3600, now' - first);
    OnDay(q - 7, 12 * 3600, now - 407 * DAY);
    OnDay(q - 6, 11 * 3600, now' - 407 * DAY);
  }

  lemma OnDay(q: int, r: int, t: Time)
    requires 0 <= r < DAY && t == q * DAY + r
    ensures t / DAY == q && Midnight(t) == q * DAY
  {
  }

  /** So two completed runs of that era leave the monthly rows of both grids. */
  lemma {:induction false} MonthlyRunsMix(n: Numerics, first: Time, counts: Time -> seq<nat>)
    requires first % DAY == 12 * 3600
    ensures var now := first + 400 * DAY; var now' := now + 23 * 3600;
      var v := WindowsAt(Starts(Monthly, now, HistoryDays(now, first)), counts);
      var w := WindowsAt(Starts(Monthly, now', HistoryDays(now', first)), counts);
      var table := AfterRun(n, Monthly, w, AfterRun(n, Monthly, v, map[], {}, |v|), {}, |w|);
      table == Recompute(n, Monthly, v) + Recompute(n, Monthly, w) && table != Recompute(n, Monthly, w)
  {
    hide AfterRun, Recompute, GridStart, HistoryDays, Aligned;
    var now, now' := first + 400 * DAY, first + 400 * DAY + 23 * 3600;
    MonthlyGridsFlip(first);
    var g, g' := GridStart(Monthly, now, 407), GridStart(Monthly, now', 407);
    TwoStarts(g, LastStart(Monthly, now));
    TwoStarts(g', LastStart(Monthly, now'));
    MisalignedRunsMix(n, Monthly, g, LastStart(Monthly, now), g', LastStart(Monthly, now'), counts);
  }

  lemma TwoStarts(g: Time, last: Time)
    requires g + 7 * DAY <= last
    ensures |StartsFrom(g, last, StrideSeconds(Monthly))| >= 2
  {
    assert |StartsFrom(g + 7 * DAY, last, 7 * DAY)| >= 1;
  }
}
