/** The territory lifecycle over any sequence of deletions, additions and clustering runs. */
module LifecycleRuns {
  import opened Wrappers
  import opened SortedLabels
  import opened Clusters
  import opened GreedyMatching
  import opened StabilizeSpec
  import opened StabilizeMatching
  import opened StabilizeIdentity
  import opened Lifecycle

  // ----- operations on the tables -----

  function Without(points: seq<Row>, gone: set<Pid>): seq<Row> {
    if points == [] then [] else (if points[0].pid in gone then [] else [points[0]]) + Without(points[1..], gone)
  }

  datatype Operation =
    | Delete(gone: set<Pid>)                  // the delete cascade
    | Reimport(gone: set<Pid>)                // points dropped, their messages to be embedded again
    | Add(pid: Pid, embedded: bool)           // a new point, not clustered yet
    | Embed(at: nat, embedded: bool)          // a point's embedding arrives (or is cleared)
    | Messages(pending: bool)                 // the messages' own embedding backlog changes
    | Cluster(raw: map<Pid, nat>, anchored: set<int>, version: Version, minPoints: nat)

  /** The delete cascade purges the profile rows of the territories it emptied. */
  function Cascade(s: State, gone: set<Pid>): State {
    var left := Without(s.points, gone);
    s.(points := left, profiles := s.profiles - (Live(s.points) - Live(left)))
  }

  ghost predicate Does(s: State, op: Operation, s': State) {
    match op
    case Delete(gone) => s' == Cascade(s, gone)
    case Reimport(gone) => s' == s.(points := Without(s.points, gone), pending := true)
    case Add(pid, embedded) => (forall i :: 0 <= i < |s.points| ==> s.points[i].pid != pid) && s' == s.(points := s.points + [Row(pid, None, embedded)])
    case Embed(at, embedded) => at < |s.points| && s' == s.(points := s.points[at := s.points[at].(embedded := embedded)])
    case Messages(pending) => s' == s.(pending := pending)
    case Cluster(raw, anchored, v, minPoints) => RunStep(s, raw, anchored, v, minPoints, s')
  }

  ghost predicate History(states: seq<State>, ops: seq<Operation>) {
    && |states| == |ops| + 1
    && forall i :: 0 <= i < |ops| ==> Does(states[i], ops[i], states[i + 1])
  }

  /** Point ids are unique, and every territory that holds a point has a profile row that is not dissolved. */
  ghost predicate Sound(s: State) {
    && UniquePids(s.points)
    && forall t :: t in Live(s.points) ==> t >= 0 && t in s.profiles && s.profiles[t].dissolvedAt == None
  }

  // ----- small steps -----

  lemma {:induction false} WithoutFacts(points: seq<Row>, gone: set<Pid>)
    ensures forall r :: r in Without(points, gone) <==> r in points && r.pid !in gone
    ensures UniquePids(points) ==> UniquePids(Without(points, gone))
    ensures Live(Without(points, gone)) <= Live(points)
  {
    if points != [] {
      var r, rest := points[0], Without(points[1..], gone);
      WithoutFacts(points[1..], gone);
      if UniquePids(points) {
        forall i | 0 <= i < |rest| ensures rest[i].pid != r.pid { assert rest[i] in points[1..]; }
      }
      LiveOfSubset(Without(points, gone), points);
    }
  }

  lemma LiveOfSubset(some: seq<Row>, all: seq<Row>)
    requires forall r :: r in some ==> r in all
    ensures Live(some) <= Live(all)
  {
    forall i | 0 <= i < |some| && some[i].territory.Some? ensures some[i].territory.value in Live(all) {
      assert some[i] in all;
      var j :| 0 <= j < |all| && all[j] == some[i];
    }
  }

  /** Deleting removes exactly the points named and the profile rows of the territories that lost their
    * last point by it. */
  lemma {:induction false} DeletePurgesEmptied(s: State, gone: set<Pid>, t: int)
    ensures var s' := Cascade(s, gone);
      && (forall r :: r in s'.points <==> r in s.points && r.pid !in gone)
      && (t in s'.profiles <==> t in s.profiles && (t in Live(s.points) ==> exists i :: 0 <= i < |s.points| && s.points[i].pid !in gone && s.points[i].territory == Some(t)))
      && (t in s'.profiles ==> s'.profiles[t] == s.profiles[t])
  {
    WithoutFacts(s.points, gone);
    var left := Without(s.points, gone);
    if i :| 0 <= i < |s.points| && s.points[i].pid !in gone && s.points[i].territory == Some(t) {
      assert s.points[i] in left;
      var j :| 0 <= j < |left| && left[j] == s.points[i];
      assert t in Live(left);
    }
    if t in Live(left) {
      var j :| 0 <= j < |left| && left[j].territory == Some(t);
      assert left[j] in s.points;
      var i :| 0 <= i < |s.points| && s.points[i] == left[j];
    }
  }

  lemma OperationKeepsSound(s: State, op: Operation, s': State)
    requires Sound(s) && Does(s, op, s')
    ensures Sound(s')
  {
    hide RunStep;
    match op
    case Delete(gone) => WithoutFacts(s.points, gone);
    case Reimport(gone) => WithoutFacts(s.points, gone);
    case Add(pid, embedded) =>
      assert Live(s'.points) <= Live(s.points);
    case Embed(at, embedded) =>
      assert Live(s'.points) <= Live(s.points);
    case Messages(pending) =>
    case Cluster(raw, anchored, v, minPoints) => RunKeepsSound(s, raw, anchored, v, minPoints, s');
  }

  // ----- what one run assigns -----

  /** What the id map does to one embedded row: it continues an old cluster that shares enough
    * with it, or takes an id that has no profile row. */
  ghost predicate Continues(s: State, raw: map<Pid, nat>, anchored: set<int>, n: int, t: int)
    requires Embeds(s, raw)
  {
    var before, after := OldAssignment(s.points), NewAssignment(s.points, raw);
    t in Keys(before) && Score(before, after, n, t) >= Threshold(t, anchored)
  }

  ghost predicate Assigned(s: State, raw: map<Pid, nat>, anchored: set<int>, mapping: map<int, int>, n: int)
    requires Embeds(s, raw)
  {
    n in mapping && mapping[n] >= 0 && (Continues(s, raw, anchored, n, mapping[n]) || mapping[n] !in s.profiles)
  }

  lemma RunAssigns(s: State, raw: map<Pid, nat>, anchored: set<int>,
                   mapping: map<int, int>, events: seq<Event>, lineage: seq<Lineage>, i: nat)
    requires Embeds(s, raw) && i < |s.points| && s.points[i].embedded
    requires IsResult(mapping, events, lineage, OldAssignment(s.points), NewAssignment(s.points, raw), anchored, s.profiles.Keys)
    ensures Assigned(s, raw, anchored, mapping, raw[s.points[i].pid])
  {
    hide Keys, Score, Threshold, Chosen, FinalMapping, FinalEvents, IsLineage, IsFirstRunMapping, UniquePids, Live;
    hide OldAssignment, NewAssignment, UniqueLabels, IsFirstRun, Known, UsedNew;
    var before, after, n := OldAssignment(s.points), NewAssignment(s.points, raw), raw[s.points[i].pid];
    RawLabelIsKey(s, raw, i);
    if before == [] {
      FirstRunAssigns(mapping, events, after, s.profiles.Keys, n);
    } else {
      var next :| IsLaterRun(mapping, events, lineage, before, after, anchored, s.profiles.Keys, next);
      IdsAreOldOrFresh(before, after, anchored, s.profiles.Keys, next, n);
      OldKeysAreNatural(before);
      if n in UsedNew(Chosen(before, after, anchored)) {
        MatchedShares(before, after, anchored, next, n);
      } else {
        FreshIsNatural(before, after, anchored, s.profiles.Keys, next, n);
      }
    }
  }

  /** The minimum is compared with the number of points the clustering labels. */
  lemma {:induction false} EmbeddedAreClustered(points: seq<Row>, raw: map<Pid, nat>)
    requires forall i :: 0 <= i < |points| && points[i].embedded ==> points[i].pid in raw
    ensures |NewAssignment(points, raw)| == EmbeddedCount(points)
  {
    if points != [] { EmbeddedAreClustered(points[1..], raw); }
  }

  lemma RawLabelIsKey(s: State, raw: map<Pid, nat>, i: nat)
    requires Embeds(s, raw) && i < |s.points| && s.points[i].embedded
    ensures raw[s.points[i].pid] in Keys(NewAssignment(s.points, raw)) && raw[s.points[i].pid] in LabelsIn(NewAssignment(s.points, raw))
  {
    hide Keys;
    var after := NewAssignment(s.points, raw);
    var e: (Pid, int) := (s.points[i].pid, raw[s.points[i].pid]);
    AssignedPoints(s.points, raw);
    assert NowAt(s.points, i, e, raw);
    assert e in after;
    var j :| 0 <= j < |after| && after[j] == e;
    assert LabelsIn(after)[j] == e.1;
    assert e.0 in Members(after, e.1);
    KeysAreLabels(after);
  }

  lemma {:induction false} OldKeysAreNatural(a: Assignment)
    ensures forall c :: c in Keys(a) ==> c >= 0
  {
    KeysAreLabels(a);
  }

  lemma FirstRunAssigns(mapping: map<int, int>, events: seq<Event>, after: Assignment, reserved: set<int>, n: int)
    requires IsFirstRun(mapping, events, after, reserved) && n in LabelsIn(after) && n >= 0
    ensures n in mapping && mapping[n] >= n && mapping[n] !in reserved
  {
    hide FirstLabels, Members, LabelsIn;
    var labels := UniqueLabels(LabelsIn(after));
    UniqueLabelsSorted(LabelsIn(after));
    var i :| 0 <= i < |labels| && labels[i] == n;
    assert IsFirstFree(mapping[labels[i]], labels[i], reserved + Given(mapping, labels, i));
  }

  lemma MatchedShares(before: Assignment, after: Assignment, anchored: set<int>, next: int, n: int)
    requires n in UsedNew(Chosen(before, after, anchored)) && n in FinalMapping(before, after, anchored, next)
    ensures var t := FinalMapping(before, after, anchored, next)[n];
      t in Keys(before) && Score(before, after, n, t) >= Threshold(t, anchored)
  {
    hide Chosen, Keys, FinalMapping, Score, Threshold;
    var m := Chosen(before, after, anchored);
    ChosenFacts(before, after, anchored);
    MappedOrFormed(before, after, anchored, next);
    var i :| 0 <= i < |m| && m[i].newId == n;
    assert m[i] in m;
  }

  lemma FreshIsNatural(before: Assignment, after: Assignment, anchored: set<int>, reserved: set<int>, next: int, n: int)
    requires IsHighWater(next, Known(before, after, reserved)) && n in Keys(after) && n !in UsedNew(Chosen(before, after, anchored))
    ensures n in FinalMapping(before, after, anchored, next)
    ensures var t := FinalMapping(before, after, anchored, next)[n]; t >= 0 && t !in reserved
  {
    hide Chosen, Keys, FinalMapping, UsedNew;
    IdsAreOldOrFresh(before, after, anchored, reserved, next, n);
    MappedOrFormed(before, after, anchored, next);
    OldKeysAreNatural(after);
    assert n in Known(before, after, reserved);
  }

  // ----- one run -----

  /** The profile of `t` after the whole run, in terms of where the points ended. */
  lemma ProfileAfterRun(s: State, raw: map<Pid, nat>, mapping: map<int, int>, events: seq<Event>, v: Version, t: int)
    requires Embeds(s, raw)
    ensures var r := AfterRun(s, raw, mapping, events, v);
      && r.points == WriteResults(s.points, raw, mapping) && r.pending == s.pending && Backlog(r) == Backlog(s)
      && (t in r.profiles <==> t in s.profiles || t in Touched(r.points))
      && (t in s.profiles ==> r.profiles[t].born == s.profiles[t].born)
      && (t in s.profiles ==> (r.profiles[t].dissolvedAt.Some? <==>
            t !in Live(r.points) && (!Backlog(s) || t in DissolvedIds(events) || s.profiles[t].dissolvedAt.Some?)))
      && (t in s.profiles && r.profiles[t].dissolvedAt.Some? ==> r.profiles[t].dissolvedAt == Some(v) || r.profiles[t] == s.profiles[t])
      && (t !in s.profiles && t in Touched(r.points) ==> r.profiles[t] == Profile(None, v))
  {
    hide Touched, DissolvedIds, Live;
    var r, written := AfterRun(s, raw, mapping, events, v), WriteResults(s.points, raw, mapping);
    WritingKeepsBacklog(s, raw, mapping);
    assert Touched(r.points) == Touched(written);
  }

  lemma WritingKeepsBacklog(s: State, raw: map<Pid, nat>, mapping: map<int, int>)
    requires Embeds(s, raw)
    ensures var w := WriteResults(s.points, raw, mapping);
      && |w| == |s.points|
      && forall i :: 0 <= i < |w| ==> w[i] == WriteRow(s.points[i], raw, mapping) && w[i].embedded == s.points[i].embedded && w[i].pid == s.points[i].pid
  {
  }

  /** Where the points are after the run: an embedded point in the territory its label was mapped
    * to, the others where they were. */
  lemma LiveAfterRun(s: State, raw: map<Pid, nat>, anchored: set<int>,
                     mapping: map<int, int>, events: seq<Event>, lineage: seq<Lineage>, t: int)
    requires Sound(s) && Embeds(s, raw)
    requires IsResult(mapping, events, lineage, OldAssignment(s.points), NewAssignment(s.points, raw), anchored, s.profiles.Keys)
    requires t in Live(WriteResults(s.points, raw, mapping))
    ensures t >= 0 && (t in s.profiles || t in Touched(WriteResults(s.points, raw, mapping)))
  {
    hide IsResult, UniquePids;
    var w := WriteResults(s.points, raw, mapping);
    WritingKeepsBacklog(s, raw, mapping);
    var i :| 0 <= i < |w| && w[i].territory.Some? && w[i].territory.value == t;
    if s.points[i].embedded {
      RunAssigns(s, raw, anchored, mapping, events, lineage, i);
    } else {
      assert t in Live(s.points);
    }
  }

  lemma RunKeepsSound(s: State, raw: map<Pid, nat>, anchored: set<int>, v: Version, minPoints: nat, s': State)
    requires Sound(s) && RunStep(s, raw, anchored, v, minPoints, s')
    ensures Sound(s')
  {
    hide IsResult, Live, AfterRun, WriteResults, Touched, OldAssignment, NewAssignment;
    if EmbeddedCount(s.points) < minPoints {
      forall t | t in Live(s.points) ensures t in s'.profiles && s'.profiles[t].dissolvedAt == None { PruneFollowsLiveness(s, v, t); }
    } else {
      var mapping, events, lineage :|
        IsResult(mapping, events, lineage, OldAssignment(s.points), NewAssignment(s.points, raw), anchored, s.profiles.Keys)
        && s' == AfterRun(s, raw, mapping, events, v);
      ProfileAfterRun(s, raw, mapping, events, v, 0);
      WritingKeepsBacklog(s, raw, mapping);
      forall t | t in Live(s'.points) ensures t >= 0 && t in s'.profiles && s'.profiles[t].dissolvedAt == None {
        ProfileAfterRun(s, raw, mapping, events, v, t);
        LiveAfterRun(s, raw, anchored, mapping, events, lineage, t);
      }
    }
  }

  lemma BacklogIff(s: State)
    ensures Backlog(s) <==> s.pending || exists i :: 0 <= i < |s.points| && !s.points[i].embedded
  {
  }

  /** After a completed run, whatever the tables held before it, no profile whose territory holds a
    * point is dissolved, and unless a message or a point awaits its embedding every one that holds none
    * is, at this version or as it was before. */
  lemma RunSettlesLiveness(s: State, raw: map<Pid, nat>, anchored: set<int>, v: Version, minPoints: nat, s': State, t: int)
    requires RunStep(s, raw, anchored, v, minPoints, s') && t in s'.profiles
    ensures t in Live(s'.points) ==> s'.profiles[t].dissolvedAt == None
    ensures !s'.pending && (forall i :: 0 <= i < |s'.points| ==> s'.points[i].embedded) ==>
      (s'.profiles[t].dissolvedAt.Some? <==> t !in Live(s'.points))
    ensures s'.profiles[t].dissolvedAt.Some? ==> s'.profiles[t].dissolvedAt == Some(v) || (t in s.profiles && s'.profiles[t] == s.profiles[t])
    ensures t !in s.profiles ==>
      s'.profiles[t] == Profile(None, v) && exists i :: 0 <= i < |s'.points| && s'.points[i].embedded && s'.points[i].territory == Some(t)
  {
    BacklogIff(s);
    BacklogIff(s');
    hide IsResult, Live, AfterRun, WriteResults, Touched, OldAssignment, NewAssignment, UniquePids, Backlog;
    if EmbeddedCount(s.points) < minPoints {
      PruneKeepsBacklog(s, v);
      PruneFollowsLiveness(s, v, t);
    } else {
      var mapping, events, lineage :|
        IsResult(mapping, events, lineage, OldAssignment(s.points), NewAssignment(s.points, raw), anchored, s.profiles.Keys)
        && s' == AfterRun(s, raw, mapping, events, v);
      ProfileAfterRun(s, raw, mapping, events, v, t);
      TouchedIsLive(s'.points);
      TouchedHasPoint(s'.points, t);
    }
  }

  lemma PruneKeepsBacklog(s: State, v: Version)
    ensures Backlog(Pruned(s, v)) == Backlog(s) && Pruned(s, v).profiles.Keys == s.profiles.Keys
  {
  }

  lemma TouchedHasPoint(points: seq<Row>, t: int)
    ensures t in Touched(points) <==> exists i :: 0 <= i < |points| && points[i].embedded && points[i].territory == Some(t)
  {
  }

  lemma TouchedIsLive(points: seq<Row>)
    ensures Touched(points) <= Live(points)
  {
  }

  /** A run gives an embedded point either an id that had no profile row, whose row it inserts, or
    * the id of an old cluster that overlaps the point's new cluster up to the threshold. */
  lemma RunReusesOnlyOverlap(s: State, raw: map<Pid, nat>, anchored: set<int>, v: Version, minPoints: nat, s': State, i: nat)
    requires RunStep(s, raw, anchored, v, minPoints, s') && EmbeddedCount(s.points) >= minPoints
    requires i < |s.points| && s.points[i].embedded
    ensures |s'.points| == |s.points| && s'.points[i].territory.Some?
    ensures var t := s'.points[i].territory.value;
      if t in s.profiles then Continues(s, raw, anchored, raw[s.points[i].pid], t) else t in s'.profiles && s'.profiles[t] == Profile(None, v)
  {
    hide IsResult, Live, AfterRun, OldAssignment, NewAssignment, UniquePids, Backlog, Continues, EmbeddedCount;
    var mapping, events, lineage :|
      IsResult(mapping, events, lineage, OldAssignment(s.points), NewAssignment(s.points, raw), anchored, s.profiles.Keys)
      && s' == AfterRun(s, raw, mapping, events, v);
    RunAssigns(s, raw, anchored, mapping, events, lineage, i);
    ProfileAfterRun(s, raw, mapping, events, v, mapping[raw[s.points[i].pid]]);
    WritingKeepsBacklog(s, raw, mapping);
  }

  // ----- dissolution -----

  /** 'dissolved' events name exactly the old clusters no new cluster was matched to. */
  lemma DissolvedIdsAreGone(mapping: map<int, int>, events: seq<Event>, lineage: seq<Lineage>,
                            before: Assignment, after: Assignment, anchored: set<int>, reserved: set<int>, t: int)
    requires IsResult(mapping, events, lineage, before, after, anchored, reserved)
    ensures t in DissolvedIds(events) <==> t in Gone(before, after, anchored)
  {
    hide Members, Keys, IsFirstRunMapping, UniqueLabels, IsLineage, Known, FinalMapping, Chosen;
    if before == [] {
      NoOldClusters(after, anchored);
    } else {
      var m, gone := Chosen(before, after, anchored), Gone(before, after, anchored);
      var next :| IsLaterRun(mapping, events, lineage, before, after, anchored, reserved, next);
      var formed := Rest(Keys(after), UsedNew(m));
      NoneDissolved(m, formed, next, before, after);
      AllDissolved(gone, before);
      DissolvedOfParts(MatchEvents(m, before, after), FormedEvents(formed, next, after));
      DissolvedOfParts(MatchEvents(m, before, after) + FormedEvents(formed, next, after), DissolvedEvents(gone, before));
    }
  }

  lemma NoOldClusters(after: Assignment, anchored: set<int>)
    ensures Gone([], after, anchored) == []
  {
  }

  lemma DissolvedOfParts(a: seq<Event>, b: seq<Event>)
    ensures DissolvedIds(a + b) == DissolvedIds(a) + DissolvedIds(b)
  {
    var c := a + b;
    forall t ensures t in DissolvedIds(c) <==> t in DissolvedIds(a) + DissolvedIds(b) {
      if t in DissolvedIds(a) { var i :| 0 <= i < |a| && a[i].kind == Dissolved && a[i].cluster == t; assert c[i] == a[i]; }
      if t in DissolvedIds(b) { var i :| 0 <= i < |b| && b[i].kind == Dissolved && b[i].cluster == t; assert c[|a| + i] == b[i]; }
    }
  }

  lemma {:induction false} NoneDissolved(m: seq<Edge>, formed: seq<int>, next: int, before: Assignment, after: Assignment)
    ensures DissolvedIds(MatchEvents(m, before, after)) == {} && DissolvedIds(FormedEvents(formed, next, after)) == {}
    decreases |m| + |formed|
  {
    hide Members;
    if m != [] {
      NoneDissolved(m[..|m| - 1], formed, next, before, after);
    } else if formed != [] {
      NoneDissolved(m, formed[..|formed| - 1], next, before, after);
    }
  }

  lemma {:induction false} AllDissolved(gone: seq<int>, before: Assignment)
    ensures forall t :: t in DissolvedIds(DissolvedEvents(gone, before)) <==> t in gone
  {
    hide Members;
    if gone != [] {
      var front, o := gone[..|gone| - 1], gone[|gone| - 1];
      var e := Event(Dissolved, o, [o], None, 0, -|Members(before, o)|);
      AllDissolved(front, before);
      DissolvedOfParts(DissolvedEvents(front, before), [e]);
      assert [e][0].kind == Dissolved;
      assert gone == front + [o];
    }
  }

  /** Territory `t` holds a point that this run does not cluster. */
  predicate HoldsUnembedded(points: seq<Row>, t: int) {
    exists i :: 0 <= i < |points| && !points[i].embedded && points[i].territory == Some(t)
  }

  /** The id of an unmatched old cluster is given to no point. */
  lemma {:induction false} GoneIsNotReassigned(before: Assignment, after: Assignment, anchored: set<int>, reserved: set<int>,
                                               mapping: map<int, int>, events: seq<Event>, lineage: seq<Lineage>, n: int, t: int)
    requires IsResult(mapping, events, lineage, before, after, anchored, reserved)
    requires t in Gone(before, after, anchored) && n in Keys(after)
    ensures n in mapping && mapping[n] != t
  {
    hide Keys, Chosen, FinalMapping, FinalEvents, IsLineage, Members, IsFirstRun;
    var m := Chosen(before, after, anchored);
    if before == [] {
      NoOldClusters(after, anchored);
      assert false;
    } else {
      var next :| IsLaterRun(mapping, events, lineage, before, after, anchored, reserved, next);
      RestFacts(Keys(before), UsedOld(m));
      OldIsKnown(before, after, reserved);
      IdsAreOldOrFresh(before, after, anchored, reserved, next, n);
      MappedOrFormed(before, after, anchored, next);
      if n in UsedNew(m) {
        var i :| 0 <= i < |m| && m[i].newId == n;
        assert m[i] in m && m[i].oldId in UsedOld(m);
      }
    }
  }

  /** So after the run only a point that was not clustered can keep an unmatched territory alive. */
  lemma {:induction false} GoneLivesOnUnembedded(s: State, raw: map<Pid, nat>, anchored: set<int>,
                                                 mapping: map<int, int>, events: seq<Event>, lineage: seq<Lineage>, t: int)
    requires Embeds(s, raw)
    requires IsResult(mapping, events, lineage, OldAssignment(s.points), NewAssignment(s.points, raw), anchored, s.profiles.Keys)
    requires t in Gone(OldAssignment(s.points), NewAssignment(s.points, raw), anchored)
    ensures t in Live(WriteResults(s.points, raw, mapping)) <==> HoldsUnembedded(s.points, t)
  {
    hide IsResult, Gone, OldAssignment, NewAssignment, Keys;
    var w := WriteResults(s.points, raw, mapping);
    WritingKeepsBacklog(s, raw, mapping);
    forall i | 0 <= i < |w| && s.points[i].embedded ensures w[i].territory != Some(t) {
      RawLabelIsKey(s, raw, i);
      GoneIsNotReassigned(OldAssignment(s.points), NewAssignment(s.points, raw), anchored, s.profiles.Keys, mapping, events, lineage, raw[s.points[i].pid], t);
    }
    if HoldsUnembedded(s.points, t) {
      var i :| 0 <= i < |s.points| && !s.points[i].embedded && s.points[i].territory == Some(t);
      assert w[i].territory == Some(t);
    }
  }

  /** While embeddings are outstanding, a run dissolves exactly those territories whose cluster was
    * matched to no new one and that hold no point awaiting its embedding: `main` marks them before
    * the gated prune, so the gate does not cover a territory that is only partly absent. */
  lemma {:induction false} BacklogRunDissolvesUnmatched(s: State, raw: map<Pid, nat>, anchored: set<int>, v: Version, minPoints: nat, s': State, t: int)
    requires RunStep(s, raw, anchored, v, minPoints, s') && (s.pending || exists i :: 0 <= i < |s.points| && !s.points[i].embedded)
    requires t in s.profiles && s.profiles[t].dissolvedAt == None
    ensures t in s'.profiles && (s'.profiles[t].dissolvedAt.Some? ==> s'.profiles[t].dissolvedAt == Some(v))
    ensures s'.profiles[t].dissolvedAt.Some? <==>
      EmbeddedCount(s.points) >= minPoints && t in Gone(OldAssignment(s.points), NewAssignment(s.points, raw), anchored) && !HoldsUnembedded(s.points, t)
  {
    hide IsResult, Live, AfterRun, WriteResults, Touched, OldAssignment, NewAssignment, UniquePids, Backlog, EmbeddedCount, Gone, DissolvedIds, HoldsUnembedded;
    BacklogIff(s);
    if EmbeddedCount(s.points) < minPoints {
      PruneFollowsLiveness(s, v, t);
    } else {
      var before, after := OldAssignment(s.points), NewAssignment(s.points, raw);
      var mapping, events, lineage :|
        IsResult(mapping, events, lineage, before, after, anchored, s.profiles.Keys) && s' == AfterRun(s, raw, mapping, events, v);
      ProfileAfterRun(s, raw, mapping, events, v, t);
      DissolvedIdsAreGone(mapping, events, lineage, before, after, anchored, s.profiles.Keys, t);
      if t in Gone(before, after, anchored) { GoneLivesOnUnembedded(s, raw, anchored, mapping, events, lineage, t); }
    }
  }

  /** Only a territory with a point can be among the unmatched ones. */
  lemma {:induction false} GoneHeldPoints(points: seq<Row>, raw: map<Pid, nat>, anchored: set<int>, t: int)
    requires forall i :: 0 <= i < |points| && points[i].embedded ==> points[i].pid in raw
    requires t in Gone(OldAssignment(points), NewAssignment(points, raw), anchored)
    ensures t in Live(points)
  {
    hide Chosen, UsedOld, Keys;
    var before := OldAssignment(points);
    RestFacts(Keys(before), UsedOld(Chosen(before, NewAssignment(points, raw), anchored)));
    KeyHoldsPoint(points, raw, t);
  }

  lemma {:induction false} KeyHoldsPoint(points: seq<Row>, raw: map<Pid, nat>, t: int)
    requires forall i :: 0 <= i < |points| && points[i].embedded ==> points[i].pid in raw
    requires t in Keys(OldAssignment(points))
    ensures t in Live(points)
  {
    var before := OldAssignment(points);
    KeysAreLabels(before);
    var p :| p in Members(before, t);
    var i :| 0 <= i < |before| && before[i] == (p, t);
    assert before[i] in before;
    AssignedPoints(points, raw);
    var j: nat :| WasAt(points, j, (p, t));
  }

  /** A territory with no point at all while embeddings are outstanding survives the run. */
  lemma AbsentTerritorySurvives(s: State, raw: map<Pid, nat>, anchored: set<int>, v: Version, minPoints: nat, s': State, t: int)
    requires RunStep(s, raw, anchored, v, minPoints, s') && (s.pending || exists i :: 0 <= i < |s.points| && !s.points[i].embedded)
    requires t in s.profiles && s.profiles[t].dissolvedAt == None && t !in Live(s.points)
    ensures t in s'.profiles && s'.profiles[t].dissolvedAt == None
  {
    hide IsResult, AfterRun, Gone, Live, UniquePids, Backlog, EmbeddedCount, OldAssignment, NewAssignment;
    BacklogRunDissolvesUnmatched(s, raw, anchored, v, minPoints, s', t);
    if t in Gone(OldAssignment(s.points), NewAssignment(s.points, raw), anchored) { GoneHeldPoints(s.points, raw, anchored, t); }
  }

  function Name(i: nat): Pid { seq(i, _ => 'p') }

  /** Territory 0 has lost a point to a re-import, so a message is pending, and keeps one point;
    * territory 1 holds the other `n - 1`. */
  function PartlyAbsent(n: nat): State {
    State(seq(n, i requires 0 <= i < n => Row(Name(i), Some(if i == 0 then 0 else 1), true)),
          map[0 := Profile(None, 0), 1 := Profile(None, 0)], true)
  }

  function OneCluster(n: nat): map<Pid, nat> { map i: nat | i < n :: Name(i) := 0 }

  /** The prune's promise that a run inside a re-import dissolves nothing the user kept does not
    * hold of the whole run: when the clustering puts all the points together, territory 0 is
    * dissolved although its message is about to return. */
  lemma PartlyAbsentIsDissolved(n: nat, minPoints: nat, s': State)
    requires n >= 3 && n >= minPoints && RunStep(PartlyAbsent(n), OneCluster(n), {}, 1, minPoints, s')
    ensures PartlyAbsent(n).pending && Sound(PartlyAbsent(n)) && 0 in Live(PartlyAbsent(n).points)
    ensures 0 in s'.profiles && s'.profiles[0].dissolvedAt.Some?
  {
    hide IsResult, AfterRun, Gone, Backlog, OldAssignment, NewAssignment;
    var s, raw := PartlyAbsent(n), OneCluster(n);
    assert s.points[0].territory == Some(0);
    NamesDiffer(n);
    AllEmbedded(s.points);
    OneClusterTakesTheMajority(n, minPoints, s');
    BacklogRunDissolvesUnmatched(s, raw, {}, 1, minPoints, s', 0);
  }

  lemma NamesDiffer(n: nat)
    ensures forall i, j :: 0 <= i < j < n ==> Name(i) != Name(j)
    ensures UniquePids(PartlyAbsent(n).points)
  {
    forall i, j | 0 <= i < j < n ensures Name(i) != Name(j) { assert |Name(i)| == i && |Name(j)| == j; }
  }

  lemma {:induction false} AllEmbedded(points: seq<Row>)
    requires forall i :: 0 <= i < |points| ==> points[i].embedded
    ensures EmbeddedCount(points) == |points|
  {
    if points != [] { AllEmbedded(points[1..]); }
  }

  lemma {:induction false} AssignmentsOfAll(points: seq<Row>, raw: map<Pid, nat>)
    requires forall i :: 0 <= i < |points| ==> points[i].embedded && points[i].territory.Some? && points[i].pid in raw
    ensures |OldAssignment(points)| == |NewAssignment(points, raw)| == |points|
    ensures forall i :: 0 <= i < |points| ==> OldAssignment(points)[i] == (points[i].pid, points[i].territory.value)
    ensures forall i :: 0 <= i < |points| ==> NewAssignment(points, raw)[i] == (points[i].pid, raw[points[i].pid])
  {
    if points != [] { AssignmentsOfAll(points[1..], raw); }
  }

  ghost predicate IsExample(n: nat, before: Assignment, after: Assignment) {
    n >= 3 && |before| == |after| == n
    && forall i :: 0 <= i < n ==> before[i] == (Name(i), if i == 0 then 0 else 1) && after[i] == (Name(i), 0)
  }

  lemma {:induction false} ExampleKeys(n: nat, before: Assignment, after: Assignment)
    requires IsExample(n, before, after)
    ensures IsDict(before) && IsDict(after) && 0 in Keys(before) && 1 in Keys(before) && forall c :: c in Keys(after) <==> c == 0
  {
    hide Keys, Name;
    NamesDiffer(n);
    KeysAreLabels(before);
    KeysAreLabels(after);
    assert before[0].0 in Members(before, 0) && before[1].0 in Members(before, 1) && after[0].0 in Members(after, 0);
    assert forall c :: c != 0 ==> Members(after, c) == {};
  }

  lemma {:induction false} ExampleMembers(n: nat, before: Assignment, after: Assignment)
    requires IsExample(n, before, after)
    ensures Members(after, 0) == Members(before, 1) + {Name(0)} && Name(0) !in Members(before, 1)
    ensures {Name(1), Name(2)} <= Members(before, 1) && Name(1) != Name(2)
  {
    hide Name;
    NamesDiffer(n);
    var x, y := Members(after, 0), Members(before, 1);
    assert before[1].0 in y && before[2].0 in y && after[0].0 in x;
    forall p ensures p in x <==> p in y || p == Name(0) {
      if p in x { var i :| 0 <= i < n && after[i].0 == p; assert before[i].0 == p; }
      if p in y { var i :| 0 <= i < n && before[i].1 == 1 && before[i].0 == p; assert after[i].0 == p; }
    }
  }

  /** The points share one new cluster; all but one of them were territory 1. */
  lemma {:induction false} ExampleScore(n: nat, before: Assignment, after: Assignment)
    requires IsExample(n, before, after)
    ensures Score(before, after, 0, 1) > 0.5
  {
    hide Name, Members, IsExample;
    ExampleMembers(n, before, after);
    var x, y := Members(after, 0), Members(before, 1);
    assert x + y == x && x * y == y;
    SubsetSize({Name(1), Name(2)}, y);
    RatioAndHalf(|x * y|, |x + y|);
  }

  lemma {:induction false} OneClusterTakesTheMajority(n: nat, minPoints: nat, s': State)
    requires n >= 3 && RunStep(PartlyAbsent(n), OneCluster(n), {}, 1, minPoints, s') && EmbeddedCount(PartlyAbsent(n).points) >= minPoints
    ensures Embeds(PartlyAbsent(n), OneCluster(n)) && 0 !in Live(s'.points)
    ensures 0 in Gone(OldAssignment(PartlyAbsent(n).points), NewAssignment(PartlyAbsent(n).points, OneCluster(n)), {})
  {
    hide Score, Keys, Chosen, FinalMapping, IsLineage, FinalEvents, AfterRun, UsedOld, Name;
    var s, raw := PartlyAbsent(n), OneCluster(n);
    var before, after := OldAssignment(s.points), NewAssignment(s.points, raw);
    AssignmentsOfAll(s.points, raw);
    ExampleKeys(n, before, after);
    ExampleScore(n, before, after);
    var m := Chosen(before, after, {});
    var mapping, events, lineage :|
      IsResult(mapping, events, lineage, before, after, {}, s.profiles.Keys) && s' == AfterRun(s, raw, mapping, events, 1);
    var next :| IsLaterRun(mapping, events, lineage, before, after, {}, s.profiles.Keys, next);
    MajorityKeepsId(before, after, {}, next, 0, 1);
    ProfileAfterRun(s, raw, mapping, events, 1, 0);
    WritingKeepsBacklog(s, raw, mapping);
    ChosenFacts(before, after, {});
    assert forall e :: e in m ==> e.oldId == 1;
    NotUsed(m, 0);
    RestFacts(Keys(before), UsedOld(m));
  }

  lemma NotUsed(m: seq<Edge>, o: int)
    requires forall e :: e in m ==> e.oldId != o
    ensures o !in UsedOld(m)
  {
  }

  // ----- whole histories -----

  /** Every state of a history is sound, so no territory that holds a point is ever dissolved. */
  lemma {:induction false} EveryStateIsSound(states: seq<State>, ops: seq<Operation>, k: nat)
    requires History(states, ops) && Sound(states[0]) && k < |states|
    ensures Sound(states[k])
  {
    hide Sound, Does;
    if k > 0 {
      EveryStateIsSound(states, ops, k - 1);
      assert Does(states[k - 1], ops[k - 1], states[k - 1 + 1]);
      OperationKeepsSound(states[k - 1], ops[k - 1], states[k]);
    }
  }

  /** A dissolved profile whose territory holds no point. */
  predicate Retired(s: State, t: int) { t in s.profiles && s.profiles[t].dissolvedAt.Some? && t !in Live(s.points) }

  /** It stays so under every operation: its id is reserved, so no cluster is formed under it, and
    * having no point it is no old cluster to be matched to. */
  lemma {:induction false} OperationKeepsRetired(s: State, op: Operation, s': State, t: int)
    requires Does(s, op, s') && Retired(s, t)
    ensures Retired(s', t) && s'.profiles[t].born == s.profiles[t].born
  {
    hide RunStep, UniquePids;
    match op
    case Delete(gone) => WithoutFacts(s.points, gone);
    case Reimport(gone) => WithoutFacts(s.points, gone);
    case Add(pid, embedded) => assert Live(s'.points) <= Live(s.points);
    case Embed(at, embedded) => assert Live(s'.points) <= Live(s.points);
    case Messages(pending) =>
    case Cluster(raw, anchored, v, minPoints) => RunKeepsRetired(s, raw, anchored, v, minPoints, s', t);
  }

  lemma {:induction false} RunKeepsRetired(s: State, raw: map<Pid, nat>, anchored: set<int>, v: Version, minPoints: nat, s': State, t: int)
    requires RunStep(s, raw, anchored, v, minPoints, s') && Retired(s, t)
    ensures Retired(s', t) && s'.profiles[t].born == s.profiles[t].born
  {
    hide IsResult, AfterRun, WriteResults, Touched, OldAssignment, NewAssignment, UniquePids, Backlog, EmbeddedCount, DissolvedIds, Continues, Live;
    if EmbeddedCount(s.points) < minPoints {
      PruneLeavesAbsentDissolved(s, v, t);
    } else {
      var mapping, events, lineage :|
        IsResult(mapping, events, lineage, OldAssignment(s.points), NewAssignment(s.points, raw), anchored, s.profiles.Keys)
        && s' == AfterRun(s, raw, mapping, events, v);
      ProfileAfterRun(s, raw, mapping, events, v, t);
      DissolvedIsNotAssigned(s, raw, anchored, mapping, events, lineage, t);
    }
  }

  lemma PruneLeavesAbsentDissolved(s: State, v: Version, t: int)
    requires t in s.profiles && s.profiles[t].dissolvedAt.Some? && t !in Live(s.points)
    ensures Pruned(s, v).profiles[t] == s.profiles[t]
  {
  }

  lemma {:induction false} DissolvedIsNotAssigned(s: State, raw: map<Pid, nat>, anchored: set<int>,
                                                  mapping: map<int, int>, events: seq<Event>, lineage: seq<Lineage>, t: int)
    requires Embeds(s, raw)
    requires IsResult(mapping, events, lineage, OldAssignment(s.points), NewAssignment(s.points, raw), anchored, s.profiles.Keys)
    requires t in s.profiles && t !in Live(s.points)
    ensures t !in Live(WriteResults(s.points, raw, mapping))
  {
    hide IsResult, UniquePids, OldAssignment, NewAssignment, Keys, Score, Threshold;
    var w := WriteResults(s.points, raw, mapping);
    WritingKeepsBacklog(s, raw, mapping);
    forall i | 0 <= i < |w| && w[i].territory.Some? ensures w[i].territory.value != t {
      if s.points[i].embedded {
        RunAssigns(s, raw, anchored, mapping, events, lineage, i);
        if t in Keys(OldAssignment(s.points)) { KeyHoldsPoint(s.points, raw, t); }
      }
    }
  }

  /** A dissolved territory that holds no point is so for the rest of any history, from any tables:
    * the restoring half of the prune cannot bring it back. */
  lemma {:induction false} DissolvedIsForever(states: seq<State>, ops: seq<Operation>, i: nat, k: nat, t: int)
    requires History(states, ops) && i <= k < |states| && Retired(states[i], t)
    ensures Retired(states[k], t) && states[k].profiles[t].born == states[i].profiles[t].born
  {
    hide Does, Retired;
    if i < k {
      DissolvedIsForever(states, ops, i, k - 1, t);
      assert Does(states[k - 1], ops[k - 1], states[k - 1 + 1]);
      assert t in states[k - 1].profiles by { RetiredHasRow(states[k - 1], t); }
      OperationKeepsRetired(states[k - 1], ops[k - 1], states[k], t);
    }
    RetiredHasRow(states[k], t);
  }

  lemma RetiredHasRow(s: State, t: int)
    requires Retired(s, t)
    ensures t in s.profiles
  {
  }

  /** A territory with a point is an old cluster. */
  lemma {:induction false} PointMakesKey(points: seq<Row>, raw: map<Pid, nat>, t: int)
    requires forall i :: 0 <= i < |points| && points[i].embedded ==> points[i].pid in raw
    requires t in Live(points) && t >= 0
    ensures t in Keys(OldAssignment(points))
  {
    var before := OldAssignment(points);
    KeysAreLabels(before);
    AssignedPoints(points, raw);
    var i :| 0 <= i < |points| && points[i].territory == Some(t);
    var e: (Pid, int) := (points[i].pid, t);
    assert WasAt(points, i, e);
    assert e in before;
    var k :| 0 <= k < |before| && before[k] == e;
    assert e.0 in Members(before, t);
  }

  /** An old cluster that is matched gets the points of the new cluster it is matched to. */
  lemma {:induction false} MatchedIsAssigned(s: State, raw: map<Pid, nat>, anchored: set<int>,
                                             mapping: map<int, int>, events: seq<Event>, lineage: seq<Lineage>, t: int)
    requires Embeds(s, raw)
    requires IsResult(mapping, events, lineage, OldAssignment(s.points), NewAssignment(s.points, raw), anchored, s.profiles.Keys)
    requires t in Keys(OldAssignment(s.points)) && t !in Gone(OldAssignment(s.points), NewAssignment(s.points, raw), anchored)
    ensures t in Live(WriteResults(s.points, raw, mapping))
  {
    hide Keys, Chosen, FinalMapping, FinalEvents, IsLineage, OldAssignment, NewAssignment, Score, Threshold, UsedNew, Known;
    var before, after := OldAssignment(s.points), NewAssignment(s.points, raw);
    var m, w := Chosen(before, after, anchored), WriteResults(s.points, raw, mapping);
    WritingKeepsBacklog(s, raw, mapping);
    RestFacts(Keys(before), UsedOld(m));
    OldKeysAreNatural(before);
    NoKeysOfNothing();
    var next :| IsLaterRun(mapping, events, lineage, before, after, anchored, s.profiles.Keys, next);
    var e :| 0 <= e < |m| && m[e].oldId == t;
    assert m[e] in m;
    ChosenFacts(before, after, anchored);
    MappedOrFormed(before, after, anchored, next);
    var j := PointOfKey(s.points, raw, m[e].newId);
    assert w[j].territory == Some(t);
  }

  lemma NoKeysOfNothing()
    ensures Keys([]) == []
  {
  }

  lemma {:induction false} PointOfKey(points: seq<Row>, raw: map<Pid, nat>, n: int) returns (j: nat)
    requires forall i :: 0 <= i < |points| && points[i].embedded ==> points[i].pid in raw
    requires n in Keys(NewAssignment(points, raw))
    ensures j < |points| && points[j].embedded && raw[points[j].pid] == n
  {
    hide Keys;
    var after := NewAssignment(points, raw);
    KeysAreLabels(after);
    var p :| p in Members(after, n);
    var i :| 0 <= i < |after| && after[i] == (p, n);
    assert after[i] in after;
    AssignedPoints(points, raw);
    j :| NowAt(points, j, (p, n), raw);
  }

  /** Which territories hold a point after a run that clusters, read off the tables before it. */
  lemma {:induction false} LivesOnIff(s: State, raw: map<Pid, nat>, anchored: set<int>,
                                      mapping: map<int, int>, events: seq<Event>, lineage: seq<Lineage>, t: int)
    requires Embeds(s, raw) && t in Live(s.points)
    requires IsResult(mapping, events, lineage, OldAssignment(s.points), NewAssignment(s.points, raw), anchored, s.profiles.Keys)
    ensures t in Live(WriteResults(s.points, raw, mapping)) <==>
      HoldsUnembedded(s.points, t) || (t >= 0 && t !in Gone(OldAssignment(s.points), NewAssignment(s.points, raw), anchored))
  {
    hide IsResult, Gone, OldAssignment, NewAssignment, Keys, UniquePids, Continues;
    var before, after := OldAssignment(s.points), NewAssignment(s.points, raw);
    var w := WriteResults(s.points, raw, mapping);
    WritingKeepsBacklog(s, raw, mapping);
    if t in Gone(before, after, anchored) {
      GoneLivesOnUnembedded(s, raw, anchored, mapping, events, lineage, t);
    } else if t >= 0 {
      PointMakesKey(s.points, raw, t);
      MatchedIsAssigned(s, raw, anchored, mapping, events, lineage, t);
    } else {
      forall i | 0 <= i < |w| && s.points[i].embedded ensures w[i].territory != Some(t) {
        RunAssigns(s, raw, anchored, mapping, events, lineage, i);
      }
      if i :| 0 <= i < |s.points| && !s.points[i].embedded && s.points[i].territory == Some(t) { assert w[i].territory == Some(t); }
    }
  }

  /** What the restoring half is for: the next completed run brings back a dissolved territory
    * exactly if it holds a point before the run and the run either clusters nothing, or leaves such
    * a point where it is for want of an embedding, or matches the territory to a new cluster. */
  lemma {:induction false} RestoredIff(s: State, raw: map<Pid, nat>, anchored: set<int>, v: Version, minPoints: nat, s': State, t: int)
    requires RunStep(s, raw, anchored, v, minPoints, s') && t in s.profiles && s.profiles[t].dissolvedAt.Some?
    ensures t in s'.profiles && s'.profiles[t].born == s.profiles[t].born
    ensures s'.profiles[t].dissolvedAt == None <==> t in Live(s'.points)
    ensures s'.profiles[t].dissolvedAt == None <==>
      t in Live(s.points) && (EmbeddedCount(s.points) < minPoints || HoldsUnembedded(s.points, t)
        || (t >= 0 && t !in Gone(OldAssignment(s.points), NewAssignment(s.points, raw), anchored)))
  {
    hide IsResult, AfterRun, WriteResults, Touched, OldAssignment, NewAssignment, UniquePids, Backlog, EmbeddedCount, DissolvedIds, Live, Gone, HoldsUnembedded;
    if EmbeddedCount(s.points) < minPoints {
      PruneFollowsLiveness(s, v, t);
      PruneLeavesDissolved(s, v, t);
    } else {
      var mapping, events, lineage :|
        IsResult(mapping, events, lineage, OldAssignment(s.points), NewAssignment(s.points, raw), anchored, s.profiles.Keys)
        && s' == AfterRun(s, raw, mapping, events, v);
      ProfileAfterRun(s, raw, mapping, events, v, t);
      if t in Live(s.points) {
        LivesOnIff(s, raw, anchored, mapping, events, lineage, t);
      } else {
        DissolvedIsNotAssigned(s, raw, anchored, mapping, events, lineage, t);
      }
    }
  }

  lemma PruneLeavesDissolved(s: State, v: Version, t: int)
    requires t in s.profiles && s.profiles[t].dissolvedAt.Some?
    ensures Pruned(s, v).profiles[t].dissolvedAt == None <==> t in Live(s.points)
  {
  }

  /** A profile row keeps its identity for as long as it exists. */
  lemma {:induction false} IdentityIsKept(states: seq<State>, ops: seq<Operation>, i: nat, k: nat, t: int)
    requires History(states, ops) && i <= k < |states|
    requires forall j :: i <= j <= k ==> t in states[j].profiles
    ensures states[k].profiles[t].born == states[i].profiles[t].born
  {
    hide Does, Live, UniquePids;
    if i < k {
      IdentityIsKept(states, ops, i, k - 1, t);
      assert Does(states[k - 1], ops[k - 1], states[k - 1 + 1]);
      OperationKeepsBorn(states[k - 1], ops[k - 1], states[k], t);
    }
  }

  lemma {:induction false} OperationKeepsBorn(s: State, op: Operation, s': State, t: int)
    requires Does(s, op, s') && t in s.profiles && t in s'.profiles
    ensures s'.profiles[t].born == s.profiles[t].born
  {
    hide IsResult, Live, WriteResults, OldAssignment, NewAssignment, AfterRun, Touched, Backlog, DissolvedIds;
    if op.Cluster? {
      if EmbeddedCount(s.points) < op.minPoints {
        PruneFollowsLiveness(s, op.version, t);
      } else {
        var mapping, events, lineage :|
          IsResult(mapping, events, lineage, OldAssignment(s.points), NewAssignment(s.points, op.raw), op.anchored, s.profiles.Keys)
          && s' == AfterRun(s, op.raw, mapping, events, op.version);
        ProfileAfterRun(s, op.raw, mapping, events, op.version, t);
      }
    }
  }
}
