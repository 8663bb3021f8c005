/** What `stabilize_ids` computes when no centroids are passed. */
module StabilizeSpec {
  import opened Wrappers
  import opened SortedLabels
  import opened Clusters
  import opened GreedyMatching

  const JACCARD_THRESHOLD: real := 0.3
  const ANCHORED_THRESHOLD: real := 0.15

  datatype EventKind = Formed | Grew | Stable | Dissolved

  datatype Event = Event(kind: EventKind, cluster: int, oldClusters: seq<int>, score: Option<real>, points: nat, delta: int)

  /** Where the members of a dissolved cluster went. */
  datatype Lineage = Lineage(oldId: int, newId: int, count: nat, strength: real, dominant: bool)

  // ----- admissible pairs -----

  function Threshold(o: int, anchored: set<int>): real {
    if o in anchored then ANCHORED_THRESHOLD else JACCARD_THRESHOLD
  }

  function Score(before: Assignment, after: Assignment, n: int, o: int): real {
    Jaccard(Members(after, n), Members(before, o))
  }

  /** The pairs of new cluster `n` that reach their threshold, in loop order. */
  function EdgesOf(n: int, oldKeys: seq<int>, before: Assignment, after: Assignment, anchored: set<int>): seq<Edge> {
    if oldKeys == [] then [] else
      var o := oldKeys[|oldKeys| - 1];
      EdgesOf(n, oldKeys[..|oldKeys| - 1], before, after, anchored) +
      if Score(before, after, n, o) >= Threshold(o, anchored) then [Edge(Score(before, after, n, o), n, o)] else []
  }

  function AllEdges(newKeys: seq<int>, oldKeys: seq<int>, before: Assignment, after: Assignment, anchored: set<int>): seq<Edge> {
    if newKeys == [] then [] else
      AllEdges(newKeys[..|newKeys| - 1], oldKeys, before, after, anchored) +
      EdgesOf(newKeys[|newKeys| - 1], oldKeys, before, after, anchored)
  }

  /** The pairs the source keeps. */
  function Chosen(before: Assignment, after: Assignment, anchored: set<int>): seq<Edge> {
    Greedy(SortEdges(AllEdges(Keys(after), Keys(before), before, after, anchored)), {}, {})
  }

  function UsedNew(m: seq<Edge>): set<int> { set i | 0 <= i < |m| :: m[i].newId }

  function UsedOld(m: seq<Edge>): set<int> { set i | 0 <= i < |m| :: m[i].oldId }

  lemma UsedGrows(m: seq<Edge>, e: Edge)
    ensures UsedNew(m + [e]) == UsedNew(m) + {e.newId} && UsedOld(m + [e]) == UsedOld(m) + {e.oldId}
  {
    var r := m + [e];
    forall x ensures x in UsedNew(r) <==> x in UsedNew(m) + {e.newId} {
      if x in UsedNew(m) { var i :| 0 <= i < |m| && m[i].newId == x; assert r[i].newId == x; }
      if x == e.newId { assert r[|m|].newId == x; }
    }
    forall x ensures x in UsedOld(r) <==> x in UsedOld(m) + {e.oldId} {
      if x in UsedOld(m) { var i :| 0 <= i < |m| && m[i].oldId == x; assert r[i].oldId == x; }
      if x == e.oldId { assert r[|m|].oldId == x; }
    }
  }

  /** Every collected pair joins a new and an old cluster at their Jaccard score, and reaches the
    * threshold; and every such pair is collected. */
  lemma {:induction false} EdgesAreAdmissible(newKeys: seq<int>, oldKeys: seq<int>, before: Assignment, after: Assignment, anchored: set<int>)
    ensures forall e :: e in AllEdges(newKeys, oldKeys, before, after, anchored) <==>
      e.newId in newKeys && e.oldId in oldKeys && e.score == Score(before, after, e.newId, e.oldId) >= Threshold(e.oldId, anchored)
  {
    hide Score, Threshold;
    if newKeys != [] {
      var front, n := newKeys[..|newKeys| - 1], newKeys[|newKeys| - 1];
      EdgesAreAdmissible(front, oldKeys, before, after, anchored);
      EdgesOfOne(n, oldKeys, before, after, anchored);
      assert newKeys == front + [n];
    }
  }

  lemma {:induction false} EdgesOfOne(n: int, oldKeys: seq<int>, before: Assignment, after: Assignment, anchored: set<int>)
    ensures forall e :: e in EdgesOf(n, oldKeys, before, after, anchored) <==>
      e.newId == n && e.oldId in oldKeys && e.score == Score(before, after, e.newId, e.oldId) >= Threshold(e.oldId, anchored)
  {
    hide Score, Threshold;
    if oldKeys != [] {
      var front, o := oldKeys[..|oldKeys| - 1], oldKeys[|oldKeys| - 1];
      EdgesOfOne(n, front, before, after, anchored);
      assert oldKeys == front + [o];
    }
  }

  // ----- mapping and events -----

  function MappingOf(m: seq<Edge>): map<int, int> {
    if m == [] then map[] else MappingOf(m[..|m| - 1])[m[|m| - 1].newId := m[|m| - 1].oldId]
  }

  function MatchEvent(e: Edge, before: Assignment, after: Assignment): Event {
    var delta := |Members(after, e.newId)| - |Members(before, e.oldId)|;
    Event(if delta > 0 then Grew else Stable, e.oldId, [e.oldId], Some(e.score), |Members(after, e.newId)|, delta)
  }

  function MatchEvents(m: seq<Edge>, before: Assignment, after: Assignment): seq<Event> {
    if m == [] then [] else MatchEvents(m[..|m| - 1], before, after) + [MatchEvent(m[|m| - 1], before, after)]
  }

  /** The keys outside `used`, in order. */
  function Rest(keys: seq<int>, used: set<int>): seq<int> {
    if keys == [] then [] else
      Rest(keys[..|keys| - 1], used) + if keys[|keys| - 1] in used then [] else [keys[|keys| - 1]]
  }

  /** `max(known) + 1 if known else 0`. */
  ghost predicate IsHighWater(next: int, known: set<int>) {
    if known == {} then next == 0 else next - 1 in known && forall x :: x in known ==> x < next
  }

  /** Each newly formed cluster takes the next id. */
  function WithFormed(m: map<int, int>, formed: seq<int>, next: int): map<int, int> {
    if formed == [] then m else
      WithFormed(m, formed[..|formed| - 1], next)[formed[|formed| - 1] := next + |formed| - 1]
  }

  function FormedEvents(formed: seq<int>, next: int, after: Assignment): seq<Event> {
    if formed == [] then [] else
      var size := |Members(after, formed[|formed| - 1])|;
      FormedEvents(formed[..|formed| - 1], next, after) + [Event(Formed, next + |formed| - 1, [], None, size, size)]
  }

  function DissolvedEvents(gone: seq<int>, before: Assignment): seq<Event> {
    if gone == [] then [] else
      var o := gone[|gone| - 1];
      DissolvedEvents(gone[..|gone| - 1], before) + [Event(Dissolved, o, [o], None, 0, -|Members(before, o)|)]
  }

  // ----- lineage -----

  function LabelOf(a: Assignment, p: Pid): Option<int> {
    if a == [] then None else if a[0].0 == p then Some(a[0].1) else LabelOf(a[1..], p)
  }

  /** The stable id of the new cluster a point ended in, if it ended in one. */
  function StableOf(p: Pid, after: Assignment, mapping: map<int, int>): Option<int> {
    match LabelOf(after, p)
    case Some(c) => if c >= 0 then Some(if c in mapping then mapping[c] else c) else None
    case None => None
  }

  /** The members of `x` that ended in stable id `s`. */
  function Arrivals(x: set<Pid>, s: int, after: Assignment, mapping: map<int, int>): set<Pid> {
    set p | p in x && StableOf(p, after, mapping) == Some(s)
  }

  function Successors(x: set<Pid>, after: Assignment, mapping: map<int, int>): set<int> {
    set p | p in x && StableOf(p, after, mapping).Some? :: StableOf(p, after, mapping).value
  }

  /** The top three successors of old cluster `o`, most arrivals first, the first one dominant.
    * Ties are broken by the iteration order of a Python set, so any order of equals is allowed. */
  ghost predicate IsTopThree(rows: seq<Lineage>, o: int, x: set<Pid>, after: Assignment, mapping: map<int, int>) {
    && |rows| == (if |Successors(x, after, mapping)| <= 3 then |Successors(x, after, mapping)| else 3)
    && (forall i :: 0 <= i < |rows| ==> IsSuccessorRow(rows[i], o, x, after, mapping) && (rows[i].dominant <==> i == 0))
    && (forall i, j :: 0 <= i < j < |rows| ==> rows[i].newId != rows[j].newId && rows[i].count >= rows[j].count)
    && (forall s, i :: s in Successors(x, after, mapping) && 0 <= i < |rows| ==>
          Listed(rows, s) || |Arrivals(x, s, after, mapping)| <= rows[i].count)
  }

  ghost predicate IsSuccessorRow(row: Lineage, o: int, x: set<Pid>, after: Assignment, mapping: map<int, int>) {
    && row.oldId == o && row.newId in Successors(x, after, mapping)
    && row.count == |Arrivals(x, row.newId, after, mapping)| > 0
    && row.strength * |x| as real == row.count as real
  }

  ghost predicate Listed(rows: seq<Lineage>, s: int) { exists j :: 0 <= j < |rows| && rows[j].newId == s }

  /** The lineage list is one top-three block per dissolved cluster. */
  ghost predicate IsLineage(rows: seq<Lineage>, gone: seq<int>, before: Assignment, after: Assignment, mapping: map<int, int>)
    decreases |gone|
  {
    if gone == [] then rows == [] else
      exists k :: 0 <= k <= |rows| && IsLineage(rows[..k], gone[..|gone| - 1], before, after, mapping)
        && IsTopThree(rows[k..], gone[|gone| - 1], Members(before, gone[|gone| - 1]), after, mapping)
  }

  // ----- the whole result -----

  /** Every id already in sight: old, raw new and reserved. */
  function Known(before: Assignment, after: Assignment, reserved: set<int>): set<int> {
    (set c | c in Keys(before)) + (set c | c in Keys(after)) + reserved
  }

  /** The id map of a run that is not a first run. */
  function FinalMapping(before: Assignment, after: Assignment, anchored: set<int>, next: int): map<int, int> {
    var m := Chosen(before, after, anchored);
    WithFormed(MappingOf(m), Rest(Keys(after), UsedNew(m)), next)
  }

  /** The old clusters no chosen pair uses. */
  function Gone(before: Assignment, after: Assignment, anchored: set<int>): seq<int> {
    Rest(Keys(before), UsedOld(Chosen(before, after, anchored)))
  }

  function FinalEvents(before: Assignment, after: Assignment, anchored: set<int>, next: int): seq<Event> {
    var m := Chosen(before, after, anchored);
    MatchEvents(m, before, after) + FormedEvents(Rest(Keys(after), UsedNew(m)), next, after) + DissolvedEvents(Gone(before, after, anchored), before)
  }

  // ----- first run -----

  function LabelsIn(a: Assignment): seq<int> { seq(|a|, i requires 0 <= i < |a| => a[i].1) }

  /** The first id from `start` on that is not taken. */
  ghost predicate IsFirstFree(n: int, start: int, taken: set<int>) {
    n >= start && n !in taken && forall x :: start <= x < n ==> x in taken
  }

  /** The ids given to the first `i` labels. */
  ghost function Given(mapping: map<int, int>, labels: seq<int>, i: nat): set<int>
    requires i <= |labels|
  {
    set j | 0 <= j < i && labels[j] in mapping :: mapping[labels[j]]
  }

  ghost function FirstLabels(labels: seq<int>, i: nat): set<int>
    requires i <= |labels|
  {
    set c | c in labels[..i]
  }

  /** Each of the first `i` labels has the first id from itself on that is neither reserved nor
    * given to an earlier label. */
  ghost predicate IsFirstRunMapping(mapping: map<int, int>, labels: seq<int>, i: nat, reserved: set<int>)
    requires i <= |labels|
  {
    && mapping.Keys == FirstLabels(labels, i)
    && forall j :: 0 <= j < i ==> labels[j] in mapping && IsFirstFree(mapping[labels[j]], labels[j], reserved + Given(mapping, labels, j))
  }

  ghost predicate IsFirstRun(mapping: map<int, int>, events: seq<Event>, after: Assignment, reserved: set<int>) {
    var labels := UniqueLabels(LabelsIn(after));
    && IsFirstRunMapping(mapping, labels, |labels|, reserved)
    && |events| == |labels|
    && (forall i :: 0 <= i < |labels| ==>
          labels[i] in mapping && events[i] == Event(Formed, mapping[labels[i]], [], None, |Members(after, labels[i])|, |Members(after, labels[i])|))
  }

  /** The whole result, both paths. */
  ghost predicate IsResult(mapping: map<int, int>, events: seq<Event>, lineage: seq<Lineage>,
                           before: Assignment, after: Assignment, anchored: set<int>, reserved: set<int>) {
    if before == [] then IsFirstRun(mapping, events, after, reserved) && lineage == []
    else exists next :: IsLaterRun(mapping, events, lineage, before, after, anchored, reserved, next)
  }

  ghost predicate IsLaterRun(mapping: map<int, int>, events: seq<Event>, lineage: seq<Lineage>,
                             before: Assignment, after: Assignment, anchored: set<int>, reserved: set<int>, next: int) {
    && IsHighWater(next, Known(before, after, reserved))
    && mapping == FinalMapping(before, after, anchored, next)
    && events == FinalEvents(before, after, anchored, next)
    && IsLineage(lineage, Gone(before, after, anchored), before, after, mapping)
  }
}
