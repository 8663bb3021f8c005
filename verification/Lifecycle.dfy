/** Territories across runs: points, profile rows, the liveness prune and the order of `main`. */
module Lifecycle {
  import opened Wrappers
  import opened Clusters
  import opened StabilizeSpec
  import opened Stabilize

  type Version = int

  /** A row of clustering_points: its territory once clustered, and whether it has its embedding. */
  datatype Row = Row(pid: Pid, territory: Option<int>, embedded: bool)

  /** A row of territory_profiles; `born` is the run that inserted it and so its identity. */
  datatype Profile = Profile(dissolvedAt: Option<Version>, born: Version)

  /** `pending`: some message is still awaiting (re-)embedding. */
  datatype State = State(points: seq<Row>, profiles: map<int, Profile>, pending: bool)

  function Live(points: seq<Row>): set<int> {
    set i | 0 <= i < |points| && points[i].territory.Some? :: points[i].territory.value
  }

  predicate Backlog(s: State) { s.pending || exists i :: 0 <= i < |s.points| && !s.points[i].embedded }

  // ----- the liveness prune -----

  function Revive(profiles: map<int, Profile>, live: set<int>): map<int, Profile> {
    map t | t in profiles :: if t in live then profiles[t].(dissolvedAt := None) else profiles[t]
  }

  function DissolveDead(profiles: map<int, Profile>, live: set<int>, v: Version): map<int, Profile> {
    map t | t in profiles :: if profiles[t].dissolvedAt.None? && t !in live then profiles[t].(dissolvedAt := Some(v)) else profiles[t]
  }

  /** What `prune_dead_territories` leaves behind. */
  function Pruned(s: State, v: Version): State {
    var revived := Revive(s.profiles, Live(s.points));
    s.(profiles := if Backlog(s) then revived else DissolveDead(revived, Live(s.points), v))
  }

  /** A second prune, whatever its version, changes nothing. */
  lemma PruneIsIdempotent(s: State, v: Version, v': Version)
    ensures Pruned(Pruned(s, v), v') == Pruned(s, v)
  {
  }

  /** While a message or a point awaits its embedding the prune dissolves nothing; otherwise exactly the
    * point-less profiles end dissolved, the newly dissolved ones at this version; a profile with a
    * point never does. */
  lemma {:induction false} PruneFollowsLiveness(s: State, v: Version, t: int)
    requires t in s.profiles
    ensures t in Pruned(s, v).profiles && Pruned(s, v).profiles[t].born == s.profiles[t].born
    ensures t in Live(s.points) ==> Pruned(s, v).profiles[t].dissolvedAt == None
    ensures t !in Live(s.points) && (s.pending || (exists i :: 0 <= i < |s.points| && !s.points[i].embedded)) ==>
      Pruned(s, v).profiles[t] == s.profiles[t]
    ensures t !in Live(s.points) && !s.pending && (forall i :: 0 <= i < |s.points| ==> s.points[i].embedded) ==>
      Pruned(s, v).profiles[t].dissolvedAt == if s.profiles[t].dissolvedAt.None? then Some(v) else s.profiles[t].dissolvedAt
  {
  }

  // ----- one stabilised run -----

  /** Old assignments: the clustered points, in table order. */
  function OldAssignment(points: seq<Row>): Assignment {
    if points == [] then [] else
      (if points[0].territory.Some? then [(points[0].pid, points[0].territory.value)] else []) + OldAssignment(points[1..])
  }

  /** New assignments: every point with an embedding, at its raw label. */
  function NewAssignment(points: seq<Row>, raw: map<Pid, nat>): Assignment
    requires forall i :: 0 <= i < |points| && points[i].embedded ==> points[i].pid in raw
  {
    if points == [] then [] else
      (if points[0].embedded then [(points[0].pid, raw[points[0].pid])] else []) + NewAssignment(points[1..], raw)
  }

  function Relabel(c: int, mapping: map<int, int>): int { if c in mapping then mapping[c] else c }

  /** `write_results`: each embedded point gets its stabilised territory, if that is not negative. */
  function WriteRow(r: Row, raw: map<Pid, nat>, mapping: map<int, int>): Row
    requires r.embedded ==> r.pid in raw
  {
    if !r.embedded then r else
      var t := Relabel(raw[r.pid], mapping);
      r.(territory := if t >= 0 then Some(t) else None)
  }

  function WriteResults(points: seq<Row>, raw: map<Pid, nat>, mapping: map<int, int>): seq<Row>
    requires forall i :: 0 <= i < |points| && points[i].embedded ==> points[i].pid in raw
  {
    seq(|points|, i requires 0 <= i < |points| => WriteRow(points[i], raw, mapping))
  }

  function DissolvedIds(events: seq<Event>): set<int> {
    set i | 0 <= i < |events| && events[i].kind == Dissolved :: events[i].cluster
  }

  /** The rows named by 'dissolved' events are marked, whatever else holds. */
  function MarkDissolved(profiles: map<int, Profile>, gone: set<int>, v: Version): map<int, Profile> {
    map t | t in profiles :: if t in gone then profiles[t].(dissolvedAt := Some(v)) else profiles[t]
  }

  /** Territories of this run's own points. */
  function Touched(points: seq<Row>): set<int> {
    set i | 0 <= i < |points| && points[i].embedded && points[i].territory.Some? :: points[i].territory.value
  }

  /** `compute_dynamics`: a row is inserted for each touched territory without one. */
  function Upsert(profiles: map<int, Profile>, touched: set<int>, v: Version): map<int, Profile> {
    profiles + map t | t in touched && t !in profiles :: Profile(None, v)
  }

  /** `main` after stabilisation: write, mark, prune, upsert, in that order. */
  function AfterRun(s: State, raw: map<Pid, nat>, mapping: map<int, int>, events: seq<Event>, v: Version): State
    requires Embeds(s, raw)
  {
    var written := s.(points := WriteResults(s.points, raw, mapping));
    var marked := written.(profiles := MarkDissolved(s.profiles, DissolvedIds(events), v));
    var pruned := Pruned(marked, v);
    pruned.(profiles := Upsert(pruned.profiles, Touched(pruned.points), v))
  }

  /** The clustering labels exactly the points that have an embedding. */
  ghost predicate Embeds(s: State, raw: map<Pid, nat>) {
    forall i :: 0 <= i < |s.points| && s.points[i].embedded ==> s.points[i].pid in raw
  }

  ghost predicate UniquePids(points: seq<Row>) { forall i, j :: 0 <= i < j < |points| ==> points[i].pid != points[j].pid }

  function EmbeddedCount(points: seq<Row>): nat {
    if points == [] then 0 else EmbeddedCount(points[1..]) + if points[0].embedded then 1 else 0
  }

  /** One completed pass of `main`. */
  ghost predicate RunStep(s: State, raw: map<Pid, nat>, anchored: set<int>, v: Version, minPoints: nat, s': State) {
    && Embeds(s, raw)
    && if EmbeddedCount(s.points) < minPoints then s' == Pruned(s, v)
       else exists mapping, events, lineage ::
         IsResult(mapping, events, lineage, OldAssignment(s.points), NewAssignment(s.points, raw), anchored, s.profiles.Keys)
         && s' == AfterRun(s, raw, mapping, events, v)
  }

  /** The tables as the source updates them. */
  class Vault {
    var points: seq<Row>
    var profiles: map<int, Profile>
    var pending: bool

    ghost function Model(): State
      reads this
    {
      State(points, profiles, pending)
    }

    /** `prune_dead_territories`: the number of rows it dissolved. */
    method Prune(v: Version) returns (n: nat)
      modifies this`profiles
      ensures Model() == Pruned(old(Model()), v)
      ensures pending || (exists i :: 0 <= i < |points| && !points[i].embedded) ==> n == 0
      ensures !pending && (forall i :: 0 <= i < |points| ==> points[i].embedded) ==>
        n == |set t | t in old(profiles) && old(profiles)[t].dissolvedAt.None? && t !in Live(points)|
    {
      var live := Live(points);
      profiles := Revive(profiles, live);
      var backlog := pending || exists i :: 0 <= i < |points| && !points[i].embedded;
      if backlog { return 0; }
      var dead := set t | t in profiles && profiles[t].dissolvedAt.None? && t !in live;
      assert dead == set t | t in old(profiles) && old(profiles)[t].dissolvedAt.None? && t !in live;
      profiles := DissolveDead(profiles, live, v);
      n := |dead|;
    }

    /** `main` on a stabilised, non-dry run; `raw` is what the clustering returned and
      * `reserved` the profile ids as the query lists them. */
    method Run(raw: map<Pid, nat>, anchored: set<int>, v: Version, minPoints: nat, reserved: seq<int>)
      requires Embeds(Model(), raw) && UniquePids(points)
      requires forall t :: t in reserved <==> t in profiles
      modifies this`points, this`profiles
      ensures RunStep(old(Model()), raw, anchored, v, minPoints, Model())
    {
      hide IsResult, WriteResults, MarkDissolved, Upsert, Pruned, Touched, OldAssignment, NewAssignment;
      hide DissolvedIds, IsDict, UniquePids, EmbeddedCount, Backlog, Live;
      if EmbeddedCount(points) < minPoints {
        var n := Prune(v);
        return;
      }
      var before, after := OldAssignment(points), NewAssignment(points, raw);
      AssignmentsAreDicts(points, raw);
      var mapping, events, lineage := StabilizeIds(before, after, anchored, reserved);
      SetOfKeys(reserved, profiles);
      points := WriteResults(points, raw, mapping);
      profiles := MarkDissolved(profiles, DissolvedIds(events), v);
      var n := Prune(v);
      profiles := Upsert(profiles, Touched(points), v);
    }
  }

  lemma {:induction false} AssignmentsAreDicts(points: seq<Row>, raw: map<Pid, nat>)
    requires UniquePids(points) && forall i :: 0 <= i < |points| && points[i].embedded ==> points[i].pid in raw
    ensures IsDict(OldAssignment(points)) && IsDict(NewAssignment(points, raw))
  {
    if points != [] {
      AssignmentsAreDicts(points[1..], raw);
      AssignedPoints(points[1..], raw);
      var r, before, after := points[0], OldAssignment(points[1..]), NewAssignment(points[1..], raw);
      forall a | 0 <= a < |before| ensures before[a].0 != r.pid { assert before[a] in before; }
      forall a | 0 <= a < |after| ensures after[a].0 != r.pid { assert after[a] in after; }
    }
  }

  predicate WasAt(points: seq<Row>, i: nat, e: (Pid, int)) {
    i < |points| && points[i].pid == e.0 && points[i].territory == Some(e.1)
  }

  predicate NowAt(points: seq<Row>, i: nat, e: (Pid, int), raw: map<Pid, nat>) {
    i < |points| && points[i].pid == e.0 && points[i].embedded && e.0 in raw && raw[e.0] == e.1
  }

  /** The old assignment lists the clustered rows and the new one the embedded rows, no more and no less. */
  lemma {:induction false} AssignedPoints(points: seq<Row>, raw: map<Pid, nat>)
    requires forall i :: 0 <= i < |points| && points[i].embedded ==> points[i].pid in raw
    ensures forall e :: e in OldAssignment(points) <==> exists i: nat :: WasAt(points, i, e)
    ensures forall e :: e in NewAssignment(points, raw) <==> exists i: nat :: NowAt(points, i, e, raw)
  {
    if points != [] {
      var rest := points[1..];
      AssignedPoints(rest, raw);
      forall e ensures e in OldAssignment(points) <==> exists i: nat :: WasAt(points, i, e) {
        if i: nat :| WasAt(points, i, e) { assert if i == 0 then WasAt(points, 0, e) else WasAt(rest, i - 1, e); }
        if i: nat :| WasAt(rest, i, e) { assert WasAt(points, i + 1, e); }
        if e in OldAssignment(points) && e !in OldAssignment(rest) { assert WasAt(points, 0, e); }
      }
      forall e ensures e in NewAssignment(points, raw) <==> exists i: nat :: NowAt(points, i, e, raw) {
        if i: nat :| NowAt(points, i, e, raw) { assert if i == 0 then NowAt(points, 0, e, raw) else NowAt(rest, i - 1, e, raw); }
        if i: nat :| NowAt(rest, i, e, raw) { assert NowAt(points, i + 1, e, raw); }
        if e in NewAssignment(points, raw) && e !in NewAssignment(rest, raw) { assert NowAt(points, 0, e, raw); }
      }
    }
  }

  lemma SetOfKeys(reserved: seq<int>, profiles: map<int, Profile>)
    requires forall t :: t in reserved <==> t in profiles
    ensures (set t | t in reserved) == profiles.Keys
  {
    var ids := set t | t in reserved;
    forall t: int ensures t in ids <==> t in profiles.Keys {}
  }
}
