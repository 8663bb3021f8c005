/** When a map is rebuilt: the staleness rule, the stored baseline it reads, and how often both
  * together can trigger a rebuild. */
module Freshness {
  import opened Ratios
  import opened Wrappers

  const MIN_ABS_DRIFT: int := 10
  const DRIFT_TOLERANCE: real := 0.10

  /** The JavaScript values that occur as counts. */
  datatype Js = Undefined | Null | NaN | Num(value: int)

  /** `Number(v)`: null becomes 0. */
  function Number(v: Js): Js {
    match v
    case Undefined => NaN
    case Null => Num(0)
    case _ => v
  }

  predicate IsFinite(v: Js) { v.Num? }

  /** `Number(v) || 0`, floored at 0. */
  function Count(v: Js): nat { if Number(v).Num? && Number(v).value > 0 then Number(v).value else 0 }

  // ----- evaluateFreshness -----

  datatype Basis = Baseline | Mapped

  datatype Verdict = Verdict(embedded: nat, mapped: nat, base: Option<nat>, basis: Basis, drift: nat, driftPct: real, stale: bool, built: bool)

  /** The recorded baseline, if there is a usable one: a null one is none. */
  function BaseOf(builtAtEmbedded: Js): Option<nat> {
    if builtAtEmbedded.Undefined? || builtAtEmbedded.Null? || !IsFinite(Number(builtAtEmbedded)) || Number(builtAtEmbedded).value < 0 then None
    else Some(Number(builtAtEmbedded).value)
  }

  function EvaluateFreshness(embedded: Js, mapped: Js, builtAtEmbedded: Js): Verdict {
    var emb, points, base := Count(embedded), Count(mapped), BaseOf(builtAtEmbedded);
    var basis := if base.Some? then Baseline else Mapped;
    if points == 0 then Verdict(emb, points, base, basis, 0, 0.0, false, false) else
      var reference := if base.Some? then base.value else points;
      var drift: nat := if emb > reference then emb - reference else 0;
      var driftPct := if emb > 0 then drift as real / emb as real else 0.0;
      Verdict(emb, points, base, basis, drift, driftPct, drift >= MIN_ABS_DRIFT && driftPct > DRIFT_TOLERANCE, true)
  }

  lemma MoreThanATenth(drift: nat, emb: nat)
    requires emb > 0
    ensures drift as real / emb as real > 0.10 <==> 10 * drift > emb
  {
    QuotientAgainst(drift as real, emb as real, 0.10);
  }

  /** The verdict in terms of the three values: counts that are no positive numbers count as 0, a baseline
    * that is no natural number as none.  The drift is what the corpus has over the baseline, or over the
    * map if there is none. */
  lemma VerdictIs(embedded: Js, mapped: Js, builtAtEmbedded: Js)
    ensures var v := EvaluateFreshness(embedded, mapped, builtAtEmbedded);
      && v.embedded == (if embedded.Num? && embedded.value > 0 then embedded.value else 0)
      && v.mapped == (if mapped.Num? && mapped.value > 0 then mapped.value else 0) && (v.built <==> v.mapped > 0)
      && v.base == (if builtAtEmbedded.Num? && builtAtEmbedded.value >= 0 then Some(builtAtEmbedded.value) else None)
      && v.basis == (if v.base.Some? then Baseline else Mapped)
      && v.drift == (if v.built && v.embedded > (if v.base.Some? then v.base.value else v.mapped)
                     then v.embedded - (if v.base.Some? then v.base.value else v.mapped) else 0)
      && v.driftPct * v.embedded as real == v.drift as real && (v.drift == 0 ==> v.driftPct == 0.0)
  {
    var v := EvaluateFreshness(embedded, mapped, builtAtEmbedded);
    if v.embedded > 0 { ShareTimes(v.drift as real, v.embedded as real); }
  }

  lemma ShareTimes(x: real, y: real)
    requires y > 0.0
    ensures x / y * y == x && (x == 0.0 ==> x / y == 0.0)
  {
  }

  /** Stale means: a map is there, and the corpus has outgrown the reference by at least ten
    * messages and by more than a ninth of the reference. */
  lemma StaleIff(embedded: nat, mapped: nat, builtAtEmbedded: Js)
    ensures var v := EvaluateFreshness(Num(embedded), Num(mapped), builtAtEmbedded);
      var reference := if builtAtEmbedded.Num? && builtAtEmbedded.value >= 0 then builtAtEmbedded.value else mapped;
      v.stale <==> mapped > 0 && embedded >= reference + 10 && 9 * embedded > 10 * reference
  {
    if embedded > 0 { MoreThanATenth(EvaluateFreshness(Num(embedded), Num(mapped), builtAtEmbedded).drift, embedded); }
  }

  // ----- the stored baseline -----

  datatype Disk = Missing | Stored(lastDurationMs: int, lastMessages: Js, lastEmbedded: Js, at: int)

  function LastEmbedded(d: Disk): Js { if d.Missing? then Undefined else d.lastEmbedded }

  /** The baseline the next evaluation will use: `readGenerateStats()?.lastEmbedded ?? null`. */
  function BaselineOf(d: Disk): Option<nat> { BaseOf(LastEmbedded(d)) }

  function FiniteOrNull(v: Js): Js { if IsFinite(Number(v)) then Number(v) else Null }

  /** generate-stats.json. */
  class GenerateStats {
    var disk: Disk

    /** `writeGenerateStats`; an omitted `embedded` is Undefined. */
    method Write(durationMs: int, messages: Js, embedded: Js, now: int)
      modifies this
      ensures disk == Stored(durationMs, messages, FiniteOrNull(if embedded.Undefined? then LastEmbedded(old(disk)) else embedded), now)
    {
      var prev := disk;
      var lastEmbedded;
      if embedded.Undefined? {
        var before := if prev.Missing? then Undefined else prev.lastEmbedded;
        lastEmbedded := if IsFinite(Number(before)) then Number(before) else Null;
      } else {
        lastEmbedded := if IsFinite(Number(embedded)) then Number(embedded) else Null;
      }
      disk := Stored(durationMs, messages, lastEmbedded, now);
    }

    /** The close handler of a run that exited with code 0: one write without the count, then, for
      * a rebuild whose count succeeds, one with it. */
    method Close(durationMs: int, count: Option<nat>, now: int)
      modifies this
      ensures disk == AfterClose(old(disk), durationMs, count, now)
    {
      Write(durationMs, Null, Undefined, now);
      if count.Some? { Write(durationMs, Null, Num(count.value), now); }
    }
  }

  function AfterClose(d: Disk, durationMs: int, count: Option<nat>, now: int): Disk {
    Stored(durationMs, Null, if count.Some? then Num(count.value) else FiniteOrNull(LastEmbedded(d)), now)
  }

  /** A write without a count is meant to preserve the recorded baseline.  It does so exactly
    * unless a null is recorded: that one becomes 0, a baseline no map was built at. */
  lemma OmittedCountPreservesIff(d: Disk, durationMs: int, now: int)
    ensures BaselineOf(AfterClose(d, durationMs, None, now)) == BaselineOf(d) <==> LastEmbedded(d) != Null
    ensures LastEmbedded(d) == Null ==> BaselineOf(AfterClose(d, durationMs, None, now)) == Some(0)
  {
  }

  /** Two completed runs without a count, on a vault with no record, so leave a map of a thousand
    * points for a thousand messages stale. */
  lemma TwoUncountedRunsMakeStale(now: int)
    ensures var d := AfterClose(AfterClose(Missing, 1, None, now), 1, None, now);
      && !EvaluateFreshness(Num(1000), Num(1000), LastEmbedded(Missing)).stale
      && EvaluateFreshness(Num(1000), Num(1000), LastEmbedded(d)).stale
  {
  }

  // ----- runs -----

  datatype Vault = Vault(disk: Disk, embedded: nat, mapped: nat)

  /** `Load` is the view asking for a rebuild, with what becomes of the run if one is started. */
  datatype Event =
    | Embed(embedded: nat)
    | Load(run: Job)
    | Measure(durationMs: int, now: int)      // a measure-only run completes

  /** A run that fails leaves the record alone; one that completes may still fail to count. */
  datatype Job = Failed | Completed(embedded: nat, mapped: nat, counted: bool, durationMs: int, now: int)

  function VerdictOf(v: Vault): Verdict { EvaluateFreshness(Num(v.embedded), Num(v.mapped), LastEmbedded(v.disk)) }

  predicate Rebuilds(v: Vault) { !VerdictOf(v).built || VerdictOf(v).stale }

  /** A load asks for a rebuild exactly if there is no map, or the corpus has outgrown the recorded baseline,
    * or the map where none is recorded, by ten messages and by more than a ninth. */
  lemma RebuildsIff(v: Vault)
    ensures var recorded := LastEmbedded(v.disk);
      var reference := if recorded.Num? && recorded.value >= 0 then recorded.value else v.mapped;
      Rebuilds(v) <==> v.mapped == 0 || (v.embedded >= reference + 10 && 9 * v.embedded > 10 * reference)
  {
    StaleIff(v.embedded, v.mapped, LastEmbedded(v.disk));
    VerdictIs(Num(v.embedded), Num(v.mapped), LastEmbedded(v.disk));
  }

  function Next(v: Vault, e: Event): Vault {
    match e
    case Embed(embedded) => v.(embedded := embedded)
    case Measure(durationMs, now) => v.(disk := AfterClose(v.disk, durationMs, None, now))
    case Load(Failed) => v
    case Load(Completed(embedded, mapped, counted, durationMs, now)) =>
      if !Rebuilds(v) then v
      else Vault(AfterClose(v.disk, durationMs, if counted then Some(embedded) else None, now), embedded, mapped)
  }

  function After(v: Vault, events: seq<Event>): Vault {
    if events == [] then v else Next(After(v, events[..|events| - 1]), events[|events| - 1])
  }

  /** The event is a load that finds the map stale and whose rebuild completes. */
  predicate CompletesStale(v: Vault, e: Event) { e.Load? && e.run.Completed? && VerdictOf(v).stale }

  predicate CountsStale(v: Vault, e: Event) { CompletesStale(v, e) && e.run.counted }

  /** The completed, counted rebuilds that staleness triggered. */
  function StaleRebuilds(v: Vault, events: seq<Event>): nat {
    if events == [] then 0 else
      var front, e := events[..|events| - 1], events[|events| - 1];
      StaleRebuilds(v, front) + if CountsStale(After(v, front), e) then 1 else 0
  }

  /** No load finds the map gone, and no message is lost while a rebuild runs. */
  ghost predicate Steady(v: Vault, events: seq<Event>) {
    forall i :: 0 <= i < |events| && events[i].Load? ==>
      var w := After(v, events[..i]);
      w.mapped > 0 && (events[i].run.Completed? ==> events[i].run.embedded >= w.embedded)
  }

  function Pow(b: nat, k: nat): nat { if k == 0 then 1 else b * Pow(b, k - 1) }

  lemma StepOfTenNinths(p9: nat, p10: nat, b0: nat, b: nat, b': nat)
    requires p9 * b >= p10 * b0 && 9 * b' >= 10 * b
    ensures 9 * p9 * b' >= 10 * p10 * b0
  {
  }

  /** One event on a vault that has a baseline and a map: the baseline moves only when a completed
    * rebuild that staleness triggered is counted, and then past the margins. */
  lemma BaselineMoves(v: Vault, e: Event)
    requires BaselineOf(v.disk).Some? && (e.Load? ==> v.mapped > 0 && (e.run.Completed? ==> e.run.embedded >= v.embedded))
    ensures BaselineOf(Next(v, e).disk).Some?
    ensures var b, b' := BaselineOf(v.disk).value, BaselineOf(Next(v, e).disk).value;
      if CountsStale(v, e) then 9 * b' >= 10 * b && b' >= b + 10 else b' == b
  {
    StaleIff(v.embedded, v.mapped, LastEmbedded(v.disk));
  }

  /** Rebuilds are geometrically rare: each one that staleness triggers needs the corpus to have
    * grown by a ninth and by ten messages over the last baseline. */
  lemma {:induction false} RebuildsAreRare(v: Vault, events: seq<Event>)
    requires BaselineOf(v.disk).Some? && Steady(v, events)
    ensures BaselineOf(After(v, events).disk).Some?
    ensures var k, b0, b := StaleRebuilds(v, events), BaselineOf(v.disk).value, BaselineOf(After(v, events).disk).value;
      Pow(9, k) * b >= Pow(10, k) * b0 && b >= b0 + 10 * k
  {
    hide Next, CountsStale, BaselineOf;
    if events != [] {
      var front, e := events[..|events| - 1], events[|events| - 1];
      SteadyPrefix(v, events);
      RebuildsAreRare(v, front);
      var w, k, b0 := After(v, front), StaleRebuilds(v, front), BaselineOf(v.disk).value;
      BaselineMoves(w, e);
      if CountsStale(w, e) {
        StepOfTenNinths(Pow(9, k), Pow(10, k), b0, BaselineOf(w.disk).value, BaselineOf(After(v, events).disk).value);
      }
    }
  }

  /** A rebuild that completes without its count, the corpus as it was. */
  function Uncounted(v: Vault, durationMs: int, now: int): Event { Load(Completed(v.embedded, v.mapped, false, durationMs, now)) }

  lemma {:induction false} UncountedRebuild(v: Vault, durationMs: int, now: int)
    requires BaselineOf(v.disk).Some? && VerdictOf(v).stale
    ensures var e := Uncounted(v, durationMs, now); var w := Next(v, e);
      && CompletesStale(v, e) && !CountsStale(v, e) && v.mapped > 0
      && BaselineOf(w.disk) == BaselineOf(v.disk) && VerdictOf(w).stale && w.embedded == v.embedded && w.mapped == v.mapped
  {
    var w := Next(v, Uncounted(v, durationMs, now));
    StaleIff(v.embedded, v.mapped, LastEmbedded(v.disk));
    StaleIff(w.embedded, w.mapped, LastEmbedded(w.disk));
  }

  /** The count matters: without it a stale map stays stale, and every load rebuilds it. */
  lemma {:induction false} UncountedRebuildsRepeat(v: Vault, durationMs: int, now: int, k: nat) returns (events: seq<Event>)
    requires BaselineOf(v.disk).Some? && VerdictOf(v).stale
    ensures |events| == k && Steady(v, events) && StaleRebuilds(v, events) == 0
    ensures forall i :: 0 <= i < k ==> CompletesStale(After(v, events[..i]), events[i])
    ensures BaselineOf(After(v, events).disk) == BaselineOf(v.disk) && VerdictOf(After(v, events)).stale
    ensures After(v, events).embedded == v.embedded && After(v, events).mapped == v.mapped
  {
    hide Next, VerdictOf, BaselineOf, CompletesStale, CountsStale;
    events := [];
    if k > 0 {
      var front := UncountedRebuildsRepeat(v, durationMs, now, k - 1);
      var w := After(v, front);
      var e := Uncounted(w, durationMs, now);
      UncountedRebuild(w, durationMs, now);
      events := front + [e];
      assert events[..k - 1] == front;
      forall i | 0 <= i < k ensures events[..i] == (if i < k - 1 then front[..i] else front) {}
    }
  }

  lemma SteadyPrefix(v: Vault, events: seq<Event>)
    requires events != [] && Steady(v, events)
    ensures Steady(v, events[..|events| - 1])
    ensures var e, w := events[|events| - 1], After(v, events[..|events| - 1]);
      e.Load? ==> w.mapped > 0 && (e.run.Completed? ==> e.run.embedded >= w.embedded)
  {
    var front := events[..|events| - 1];
    forall i | 0 <= i < |front| && front[i].Load?
      ensures var w := After(v, front[..i]); w.mapped > 0 && (front[i].run.Completed? ==> front[i].run.embedded >= w.embedded)
    {
      assert front[..i] == events[..i] && front[i] == events[i];
    }
  }

  /** A map rebuilt just now is never stale; one whose count failed is exactly as stale as before. */
  lemma {:induction false} JustRebuiltIsFresh(v: Vault, e: Event)
    requires e.Load? && e.run.Completed? && Rebuilds(v)
    ensures e.run.counted ==> !VerdictOf(Next(v, e)).stale
    ensures !e.run.counted && BaselineOf(v.disk).Some? && e.run.embedded == v.embedded && e.run.mapped > 0 && v.mapped > 0 ==>
      VerdictOf(Next(v, e)).stale
  {
    StaleIff(Next(v, e).embedded, Next(v, e).mapped, LastEmbedded(Next(v, e).disk));
    StaleIff(v.embedded, v.mapped, LastEmbedded(v.disk));
  }

  // ----- the fallback -----

  /** How many completed runs can still find no baseline: two with no record, one with a null. */
  function FallbacksLeft(d: Disk): nat {
    if LastEmbedded(d).Num? then 0 else if LastEmbedded(d).Null? then 1 else 2
  }

  /** The completed rebuilds that the fallback comparison triggered. */
  function FallbackRebuilds(v: Vault, events: seq<Event>): nat {
    if events == [] then 0 else
      var front, e := events[..|events| - 1], events[|events| - 1];
      var w := After(v, front);
      FallbackRebuilds(v, front) + if CompletesStale(w, e) && VerdictOf(w).basis == Mapped then 1 else 0
  }

  predicate Natural(d: Disk) { LastEmbedded(d).Num? ==> LastEmbedded(d).value >= 0 }

  lemma {:induction false} NaturalForever(v: Vault, events: seq<Event>)
    requires Natural(v.disk)
    ensures Natural(After(v, events).disk)
  {
    if events != [] { NaturalForever(v, events[..|events| - 1]); }
  }

  /** The fallback triggers at most two completed rebuilds in the life of a vault, one if a null is
    * recorded, and none once a number is. */
  lemma {:induction false} FallbackIsBounded(v: Vault, events: seq<Event>)
    requires Natural(v.disk)
    ensures FallbackRebuilds(v, events) + FallbacksLeft(After(v, events).disk) <= FallbacksLeft(v.disk) <= 2
  {
    if events != [] {
      var front := events[..|events| - 1];
      FallbackIsBounded(v, front);
      NaturalForever(v, front);
    }
  }

  /** After a completed fallback rebuild the fallback is out of use exactly if the count succeeded
    * or a null was recorded. */
  lemma OneFallbackIff(v: Vault, e: Event)
    requires Natural(v.disk) && CompletesStale(v, e) && VerdictOf(v).basis == Mapped
    ensures BaselineOf(Next(v, e).disk).Some? <==> e.run.counted || LastEmbedded(v.disk) == Null
  {
  }

  /** So it is not bounded at one rebuild: when the first rebuild's count fails, a second follows. */
  lemma {:induction false} FallbackCanTriggerTwice()
    ensures var v := Vault(Missing, 100, 10);
      var events := [Load(Completed(100, 10, false, 1, 1)), Load(Completed(100, 100, true, 1, 2))];
      FallbackRebuilds(v, events) == 2
  {
    var v := Vault(Missing, 100, 10);
    var first, second := Load(Completed(100, 10, false, 1, 1)), Load(Completed(100, 100, true, 1, 2));
    StaleIff(100, 10, Undefined);
    StaleIff(100, 10, Null);
    assert [first, second][..1] == [first] && [first][..0] == [];
    assert After(v, [first]) == Next(v, first);
    assert FallbackRebuilds(v, [first]) == 1;
  }
}
