/** `stabilize_ids`, loop by loop. */
module Stabilize {
  import opened Wrappers
  import opened SortedLabels
  import opened Clusters
  import opened GreedyMatching
  import opened StabilizeSpec

  /** The membership dictionary: non-negative labels in order of first appearance, and their members. */
  method BuildClusters(a: Assignment) returns (keys: seq<int>, clusters: map<int, set<Pid>>)
    ensures keys == Keys(a) && clusters.Keys == (set c | c in keys)
    ensures forall c :: c in clusters ==> clusters[c] == Members(a, c)
  {
    hide Members, Keys;
    keys, clusters := [], map[];
    NoKeys();
    for i := 0 to |a|
      invariant keys == Keys(a[..i]) && clusters.Keys == (set c | c in keys)
      invariant forall c :: c in clusters ==> clusters[c] == Members(a[..i], c)
    {
      var pid, cid := a[i].0, a[i].1;
      assert a[..i + 1] == a[..i] + [a[i]];
      KeysAreLabels(a[..i]);
      KeysOfLonger(a[..i], a[i]);
      forall c ensures Members(a[..i + 1], c) == if cid == c then Members(a[..i], c) + {pid} else Members(a[..i], c) {
        MembersOfLonger(a[..i], a[i], c);
      }
      if cid >= 0 {
        if cid !in clusters { keys := keys + [cid]; }
        clusters := clusters[cid := (if cid in clusters then clusters[cid] else {}) + {pid}];
      }
    }
    assert a[..|a|] == a;
  }

  lemma NoKeys()
    ensures Keys([]) == []
  {
  }

  lemma KeysOfLonger(b: Assignment, e: (Pid, int))
    ensures Keys(b + [e]) == if e.1 >= 0 && e.1 !in Keys(b) then Keys(b) + [e.1] else Keys(b)
  {
    assert (b + [e])[..|b|] == b;
  }

  /** The double loop that keeps the pairs reaching their threshold. */
  method CollectMatches(newKeys: seq<int>, newClusters: map<int, set<Pid>>, oldKeys: seq<int>, oldClusters: map<int, set<Pid>>, anchored: set<int>,
                        ghost before: Assignment, ghost after: Assignment) returns (matches: seq<Edge>)
    requires forall n :: n in newKeys ==> n in newClusters && newClusters[n] == Members(after, n)
    requires forall o :: o in oldKeys ==> o in oldClusters && oldClusters[o] == Members(before, o)
    ensures matches == AllEdges(newKeys, oldKeys, before, after, anchored)
  {
    hide Jaccard, Members;
    matches := [];
    for i := 0 to |newKeys|
      invariant matches == AllEdges(newKeys[..i], oldKeys, before, after, anchored)
    {
      var n := newKeys[i];
      ghost var done := matches;
      for j := 0 to |oldKeys|
        invariant matches == done + EdgesOf(n, oldKeys[..j], before, after, anchored)
      {
        var o := oldKeys[j];
        var jaccard := Jaccard(newClusters[n], oldClusters[o]);
        var threshold := if o in anchored then ANCHORED_THRESHOLD else JACCARD_THRESHOLD;
        assert oldKeys[..j + 1][..j] == oldKeys[..j];
        if jaccard >= threshold { matches := matches + [Edge(jaccard, n, o)]; }
      }
      assert oldKeys[..|oldKeys|] == oldKeys && newKeys[..i + 1][..i] == newKeys[..i];
    }
    assert newKeys[..|newKeys|] == newKeys;
  }

  /** The greedy loop over the sorted pairs. */
  method GreedyMatch(sorted: seq<Edge>, newClusters: map<int, set<Pid>>, oldClusters: map<int, set<Pid>>, ghost before: Assignment, ghost after: Assignment)
      returns (mapping: map<int, int>, matchedNew: set<int>, matchedOld: set<int>, events: seq<Event>)
    requires forall e :: e in sorted ==> e.newId in newClusters && newClusters[e.newId] == Members(after, e.newId)
    requires forall e :: e in sorted ==> e.oldId in oldClusters && oldClusters[e.oldId] == Members(before, e.oldId)
    ensures var chosen := Greedy(sorted, {}, {});
      && mapping == MappingOf(chosen) && matchedNew == UsedNew(chosen) && matchedOld == UsedOld(chosen)
      && events == MatchEvents(chosen, before, after)
  {
    hide Greedy, MappingOf, MatchEvents, UsedNew, UsedOld, Members;
    mapping, matchedNew, matchedOld, events := map[], {}, {}, [];
    ghost var chosen := [];
    NothingChosen(before, after);
    assert sorted[0..] == sorted && chosen + Greedy(sorted, {}, {}) == Greedy(sorted, {}, {});
    for i := 0 to |sorted|
      invariant chosen + Greedy(sorted[i..], matchedNew, matchedOld) == Greedy(sorted, {}, {})
      invariant mapping == MappingOf(chosen) && matchedNew == UsedNew(chosen) && matchedOld == UsedOld(chosen)
      invariant events == MatchEvents(chosen, before, after)
    {
      var e := sorted[i];
      assert e in sorted;
      GreedyStep(sorted, i, matchedNew, matchedOld);
      if !(e.newId in matchedNew || e.oldId in matchedOld) {
        mapping := mapping[e.newId := e.oldId];
        matchedNew, matchedOld := matchedNew + {e.newId}, matchedOld + {e.oldId};
        var oldCount, newCount := |oldClusters[e.oldId]|, |newClusters[e.newId]|;
        var delta := newCount - oldCount;
        var kind := if delta > 0 then Grew else if delta == 0 then Stable else Stable;
        events := events + [Event(kind, e.oldId, [e.oldId], Some(e.score), newCount, delta)];
        ChosenGrows(chosen, e, before, after);
        assert chosen + ([e] + Greedy(sorted[i + 1..], matchedNew, matchedOld)) == (chosen + [e]) + Greedy(sorted[i + 1..], matchedNew, matchedOld);
        chosen := chosen + [e];
      }
    }
    NothingLeft(sorted, matchedNew, matchedOld);
    assert chosen + [] == chosen;
  }

  lemma NothingChosen(before: Assignment, after: Assignment)
    ensures MappingOf([]) == map[] && UsedNew([]) == {} && UsedOld([]) == {} && MatchEvents([], before, after) == []
  {
  }

  lemma NothingLeft(sorted: seq<Edge>, matchedNew: set<int>, matchedOld: set<int>)
    ensures Greedy(sorted[|sorted|..], matchedNew, matchedOld) == []
  {
  }

  lemma GreedyStep(sorted: seq<Edge>, i: nat, matchedNew: set<int>, matchedOld: set<int>)
    requires i < |sorted|
    ensures Greedy(sorted[i..], matchedNew, matchedOld) ==
      if sorted[i].newId in matchedNew || sorted[i].oldId in matchedOld then Greedy(sorted[i + 1..], matchedNew, matchedOld)
      else [sorted[i]] + Greedy(sorted[i + 1..], matchedNew + {sorted[i].newId}, matchedOld + {sorted[i].oldId})
  {
  }

  lemma ChosenGrows(m: seq<Edge>, e: Edge, before: Assignment, after: Assignment)
    ensures UsedNew(m + [e]) == UsedNew(m) + {e.newId} && UsedOld(m + [e]) == UsedOld(m) + {e.oldId}
    ensures MappingOf(m + [e]) == MappingOf(m)[e.newId := e.oldId]
    ensures MatchEvents(m + [e], before, after) == MatchEvents(m, before, after) + [MatchEvent(e, before, after)]
  {
    hide Members;
    var r := m + [e];
    assert r[..|r| - 1] == m && r[|r| - 1] == e;
    UsedGrows(m, e);
  }

  ghost function AtLeast(s: set<int>, n: int): set<int> { set x | x in s && x >= n }

  /** `_alloc`. */
  method Alloc(start: int, reserved: set<int>, taken: set<int>) returns (n: int, taken': set<int>)
    ensures IsFirstFree(n, start, reserved + taken) && taken' == taken + {n}
  {
    n := start;
    while n in reserved || n in taken
      invariant n >= start && forall x :: start <= x < n ==> x in reserved + taken
      decreases AtLeast(reserved + taken, n)
    {
      assert n in AtLeast(reserved + taken, n) && n !in AtLeast(reserved + taken, n + 1);
      n := n + 1;
    }
    taken' := taken + {n};
  }

  /** `max(known) + 1 if known else 0`. */
  method NextId(known: seq<int>) returns (next: int)
    ensures IsHighWater(next, set x | x in known)
  {
    if known == [] { return 0; }
    var best := known[0];
    for i := 1 to |known|
      invariant best in known && forall j :: 0 <= j < i ==> known[j] <= best
    {
      if known[i] > best { best := known[i]; }
    }
    next := best + 1;
    assert best in (set x | x in known);
  }

  /** The loop that gives every unmatched new cluster a fresh id. */
  method FormNew(newKeys: seq<int>, newClusters: map<int, set<Pid>>, matchedNew: set<int>, mapping: map<int, int>, next: int,
                 reserved: set<int>, ghost after: Assignment)
      returns (mapping': map<int, int>, events: seq<Event>)
    requires forall n :: n in newKeys ==> n in newClusters && newClusters[n] == Members(after, n)
    requires forall x :: x in reserved ==> x < next
    ensures mapping' == WithFormed(mapping, Rest(newKeys, matchedNew), next)
    ensures events == FormedEvents(Rest(newKeys, matchedNew), next, after)
  {
    mapping', events := mapping, [];
    var nextId, handedOut := next, {};
    ghost var formed := [];
    for i := 0 to |newKeys|
      invariant formed == Rest(newKeys[..i], matchedNew)
      invariant nextId == next + |formed| && forall x :: x in handedOut ==> x < nextId
      invariant mapping' == WithFormed(mapping, formed, next) && events == FormedEvents(formed, next, after)
    {
      var n := newKeys[i];
      assert newKeys[..i + 1][..i] == newKeys[..i];
      if n !in matchedNew {
        assert nextId !in reserved + handedOut;
        var stable;
        stable, handedOut := Alloc(nextId, reserved, handedOut);
        nextId := stable + 1;
        mapping' := mapping'[n := stable];
        events := events + [Event(Formed, stable, [], None, |newClusters[n]|, |newClusters[n]|)];
        assert (formed + [n])[..|formed|] == formed;
        formed := formed + [n];
      }
    }
    assert newKeys[..|newKeys|] == newKeys;
  }

  /** `counts` is the tally of where the members seen so far ended, `order` its keys as inserted. */
  ghost predicate IsTally(order: seq<int>, counts: map<int, nat>, seen: set<Pid>, after: Assignment, mapping: map<int, int>) {
    && Distinct(order) && Counted(order, counts) && (forall s :: s in order <==> s in counts)
    && counts.Keys == Successors(seen, after, mapping)
    && forall s :: s in counts ==> counts[s] == |Arrivals(seen, s, after, mapping)| > 0
  }

  /** The counting loop over one dissolved cluster, in whatever order the set is iterated. */
  method CountSuccessors(members: set<Pid>, after: Assignment, mapping: map<int, int>) returns (order: seq<int>, counts: map<int, nat>)
    ensures IsTally(order, counts, members, after, mapping)
  {
    order, counts := [], map[];
    var left := members;
    assert members - left == {};
    while left != {}
      invariant left <= members && IsTally(order, counts, members - left, after, mapping)
    {
      hide StableOf, Arrivals, Successors, IsTally;
      assert |left| > 0;
      var p :| p in left;
      TallyGrows(order, counts, members - left, p, after, mapping);
      assert members - (left - {p}) == members - left + {p};
      var landed := StableOf(p, after, mapping);
      if landed.Some? {
        var s := landed.value;
        if s !in counts { order := order + [s]; }
        counts := counts[s := (if s in counts then counts[s] else 0) + 1];
      }
      left := left - {p};
    }
    assert members - left == members;
  }

  lemma TallyGrows(order: seq<int>, counts: map<int, nat>, seen: set<Pid>, p: Pid, after: Assignment, mapping: map<int, int>)
    requires IsTally(order, counts, seen, after, mapping) && p !in seen
    ensures match StableOf(p, after, mapping)
      case None => IsTally(order, counts, seen + {p}, after, mapping)
      case Some(s) => IsTally(if s in counts then order else order + [s], counts[s := (if s in counts then counts[s] else 0) + 1], seen + {p}, after, mapping)
  {
    hide StableOf, Arrivals, Successors;
    SuccessorsGrow(seen, p, after, mapping);
    forall t ensures |Arrivals(seen + {p}, t, after, mapping)| ==
      |Arrivals(seen, t, after, mapping)| + if StableOf(p, after, mapping) == Some(t) then 1 else 0 { ArrivalsGrow(seen, p, t, after, mapping); }
    match StableOf(p, after, mapping)
    case None =>
    case Some(s) =>
      var counts' := counts[s := (if s in counts then counts[s] else 0) + 1];
      assert counts'.Keys == counts.Keys + {s};
      if s !in counts { NoArrivals(seen, s, after, mapping); OneMoreKey(order, s); }
  }

  lemma OneMoreKey(order: seq<int>, s: int)
    requires Distinct(order) && s !in order
    ensures Distinct(order + [s]) && forall x :: x in order + [s] <==> x in order || x == s
  {
  }

  lemma ArrivalsGrow(x: set<Pid>, p: Pid, s: int, after: Assignment, mapping: map<int, int>)
    requires p !in x
    ensures |Arrivals(x + {p}, s, after, mapping)| == |Arrivals(x, s, after, mapping)| + if StableOf(p, after, mapping) == Some(s) then 1 else 0
  {
    hide StableOf;
    var more := if StableOf(p, after, mapping) == Some(s) then {p} else {};
    assert Arrivals(x + {p}, s, after, mapping) == Arrivals(x, s, after, mapping) + more;
    assert Arrivals(x, s, after, mapping) !! more;
  }

  lemma SuccessorsGrow(x: set<Pid>, p: Pid, after: Assignment, mapping: map<int, int>)
    ensures Successors(x + {p}, after, mapping)
      == Successors(x, after, mapping) + if StableOf(p, after, mapping).Some? then {StableOf(p, after, mapping).value} else {}
  {
  }

  lemma NoArrivals(x: set<Pid>, s: int, after: Assignment, mapping: map<int, int>)
    requires s !in Successors(x, after, mapping)
    ensures Arrivals(x, s, after, mapping) == {}
  {
  }

  ghost predicate Counted(order: seq<int>, counts: map<int, nat>) { forall i :: 0 <= i < |order| ==> order[i] in counts }

  function InsertByCount(s: int, order: seq<int>, counts: map<int, nat>): seq<int>
    requires s in counts && Counted(order, counts)
  {
    if order == [] || counts[s] >= counts[order[0]] then [s] + order else [order[0]] + InsertByCount(s, order[1..], counts)
  }

  /** `sorted(successor_counts.items(), key=lambda x: -x[1])`, a stable sort. */
  function ByCount(order: seq<int>, counts: map<int, nat>): (r: seq<int>)
    requires Counted(order, counts)
    ensures Counted(r, counts)
    decreases |order|
  {
    if order == [] then [] else
      var r := ByCount(order[1..], counts);
      InsertByCountFacts(order[0], r, counts);
      InsertByCount(order[0], r, counts)
  }

  lemma {:induction false} InsertByCountFacts(s: int, order: seq<int>, counts: map<int, nat>)
    requires s in counts && Counted(order, counts)
    ensures |InsertByCount(s, order, counts)| == |order| + 1
    ensures forall x :: x in InsertByCount(s, order, counts) <==> x == s || x in order
    ensures Counted(InsertByCount(s, order, counts), counts)
    ensures Distinct(order) && s !in order ==> Distinct(InsertByCount(s, order, counts))
    ensures Descends(order, counts) ==> Descends(InsertByCount(s, order, counts), counts)
  {
    if order == [] || counts[s] >= counts[order[0]] {
    } else {
      InsertByCountFacts(s, order[1..], counts);
      var t := InsertByCount(s, order[1..], counts);
      assert forall i :: 0 <= i < |t| ==> t[i] in t;
      if Descends(order, counts) {
        assert forall i :: 0 <= i < |order| - 1 ==> order[1..][i] == order[i + 1];
        assert Descends(order[1..], counts) && Descends(t, counts);
        forall i | 0 <= i < |t| ensures counts[order[0]] >= counts[t[i]] {
          if t[i] != s { var k :| 0 <= k < |order| - 1 && order[1..][k] == t[i]; }
        }
      }
    }
  }

  ghost predicate Descends(order: seq<int>, counts: map<int, nat>)
    requires Counted(order, counts)
  {
    forall i, j :: 0 <= i < j < |order| ==> counts[order[i]] >= counts[order[j]]
  }

  lemma {:induction false} ByCountFacts(order: seq<int>, counts: map<int, nat>)
    requires Distinct(order) && Counted(order, counts)
    ensures Distinct(ByCount(order, counts)) && Descends(ByCount(order, counts), counts)
    ensures |ByCount(order, counts)| == |order| && forall x :: x in ByCount(order, counts) <==> x in order
  {
    if order != [] {
      ByCountFacts(order[1..], counts);
      InsertByCountFacts(order[0], ByCount(order[1..], counts), counts);
    }
  }

  lemma {:induction false} DistinctSize(order: seq<int>, s: set<int>)
    requires Distinct(order) && forall x :: x in order <==> x in s
    ensures |order| == |s|
  {
    if order == [] {
      assert |s| == 0 by { assert forall x :: x !in s; }
    } else {
      assert order == [order[0]] + order[1..] && order[0] in order;
      DistinctSize(order[1..], s - {order[0]});
    }
  }

  /** Lineage of one dissolved cluster. */
  method TopThree(o: int, members: set<Pid>, after: Assignment, mapping: map<int, int>) returns (rows: seq<Lineage>)
    requires members != {}
    ensures IsTopThree(rows, o, members, after, mapping)
  {
    hide Arrivals, Successors, Row;
    var order, counts := CountSuccessors(members, after, mapping);
    var sorted := ByCount(order, counts);
    ByCountFacts(order, counts);
    DistinctSize(order, Successors(members, after, mapping));
    var k := if |sorted| <= 3 then |sorted| else 3;
    rows := [];
    for i := 0 to k
      invariant |rows| == i
      invariant forall a :: 0 <= a < i ==> rows[a] == Row(o, sorted[a], counts[sorted[a]], |members|, sorted[a] == sorted[0])
    {
      var s := sorted[i];
      assert s in sorted;
      rows := rows + [Row(o, s, counts[s], |members|, s == sorted[0])];
    }
    TopThreeIsRight(rows, o, members, after, mapping, sorted, counts);
  }

  lemma TopThreeIsRight(rows: seq<Lineage>, o: int, x: set<Pid>, after: Assignment, mapping: map<int, int>, sorted: seq<int>, counts: map<int, nat>)
    requires x != {} && Distinct(sorted) && (forall s :: s in sorted <==> s in counts) && Counted(sorted, counts) && Descends(sorted, counts)
    requires counts.Keys == Successors(x, after, mapping) && |sorted| == |Successors(x, after, mapping)|
    requires forall s :: s in counts ==> counts[s] == |Arrivals(x, s, after, mapping)| > 0
    requires |rows| == if |sorted| <= 3 then |sorted| else 3
    requires forall a :: 0 <= a < |rows| ==> rows[a] == Row(o, sorted[a], counts[sorted[a]], |x|, sorted[a] == sorted[0])
    ensures IsTopThree(rows, o, x, after, mapping)
  {
    hide Arrivals, Successors, Row, IsSuccessorRow;
    assert forall a :: 0 <= a < |sorted| ==> sorted[a] in sorted;
    forall a | 0 <= a < |rows| ensures IsSuccessorRow(rows[a], o, x, after, mapping) && rows[a].newId == sorted[a]
      && rows[a].count == counts[sorted[a]] && (rows[a].dominant <==> a == 0)
    {
      RowFacts(o, sorted[a], x, after, mapping, sorted[a] == sorted[0]);
    }
    forall s, i | s in Successors(x, after, mapping) && 0 <= i < |rows|
      ensures Listed(rows, s) || |Arrivals(x, s, after, mapping)| <= rows[i].count
    {
      assert s in sorted;
      var a :| 0 <= a < |sorted| && sorted[a] == s;
      if a < |rows| { assert rows[a].newId == s; } else { assert counts[sorted[i]] >= counts[sorted[a]]; }
    }
  }

  /** One lineage row: `count` of the `size` members of `o` went to `s`. */
  function Row(o: int, s: int, count: nat, size: nat, dominant: bool): Lineage
    requires size > 0
  {
    Lineage(o, s, count, count as real / size as real, dominant)
  }

  lemma RowFacts(o: int, s: int, x: set<Pid>, after: Assignment, mapping: map<int, int>, dominant: bool)
    requires x != {} && s in Successors(x, after, mapping) && |Arrivals(x, s, after, mapping)| > 0
    ensures var r := Row(o, s, |Arrivals(x, s, after, mapping)|, |x|, dominant);
      IsSuccessorRow(r, o, x, after, mapping) && r.newId == s && r.count == |Arrivals(x, s, after, mapping)| && r.dominant == dominant
  {
  }

  /** The closing loop over old clusters no new cluster was matched to. */
  method Dissolve(oldKeys: seq<int>, oldClusters: map<int, set<Pid>>, matchedOld: set<int>, mapping: map<int, int>, ghost before: Assignment, after: Assignment)
      returns (events: seq<Event>, lineage: seq<Lineage>)
    requires forall o :: o in oldKeys ==> o in oldClusters && oldClusters[o] == Members(before, o) != {}
    ensures events == DissolvedEvents(Rest(oldKeys, matchedOld), before)
    ensures IsLineage(lineage, Rest(oldKeys, matchedOld), before, after, mapping)
  {
    hide IsTopThree, Members, IsLineage, DissolvedEvents;
    events, lineage := [], [];
    ghost var gone := [];
    OneMoreGone([], [], [], 0, before, after, mapping);
    for i := 0 to |oldKeys|
      invariant gone == Rest(oldKeys[..i], matchedOld)
      invariant events == DissolvedEvents(gone, before) && IsLineage(lineage, gone, before, after, mapping)
    {
      var o := oldKeys[i];
      assert oldKeys[..i + 1][..i] == oldKeys[..i];
      if o !in matchedOld {
        events := events + [Event(Dissolved, o, [o], None, 0, -|oldClusters[o]|)];
        var rows := TopThree(o, oldClusters[o], after, mapping);
        OneMoreGone(gone, lineage, rows, o, before, after, mapping);
        lineage := lineage + rows;
        gone := gone + [o];
      }
    }
    assert oldKeys[..|oldKeys|] == oldKeys;
  }

  lemma OneMoreGone(gone: seq<int>, lineage: seq<Lineage>, rows: seq<Lineage>, o: int, before: Assignment, after: Assignment, mapping: map<int, int>)
    ensures DissolvedEvents([], before) == [] && IsLineage([], [], before, after, mapping)
    ensures DissolvedEvents(gone + [o], before) == DissolvedEvents(gone, before) + [Event(Dissolved, o, [o], None, 0, -|Members(before, o)|)]
    ensures IsLineage(lineage, gone, before, after, mapping) && IsTopThree(rows, o, Members(before, o), after, mapping)
      ==> IsLineage(lineage + rows, gone + [o], before, after, mapping)
  {
    hide IsTopThree, Members;
    var g, l := gone + [o], lineage + rows;
    assert g[..|g| - 1] == gone && g[|g| - 1] == o;
    assert l[..|lineage|] == lineage && l[|lineage|..] == rows;
  }

  /** The first-run path: every label in ascending order, through the allocator. */
  method FirstRun(after: Assignment, reserved: set<int>) returns (mapping: map<int, int>, events: seq<Event>)
    ensures IsFirstRun(mapping, events, after, reserved)
  {
    hide Members, IsFirstRunMapping, IsFirstFree, Given;
    var labels := UniqueLabels(LabelsIn(after));
    UniqueLabelsSorted(LabelsIn(after));
    mapping, events := map[], [];
    var taken := {};
    NothingMapped(labels, reserved);
    for i := 0 to |labels|
      invariant IsFirstRunMapping(mapping, labels, i, reserved) && taken == Given(mapping, labels, i)
      invariant |events| == i && forall a :: 0 <= a < i ==>
        labels[a] in mapping && events[a] == Event(Formed, mapping[labels[a]], [], None, |Members(after, labels[a])|, |Members(after, labels[a])|)
    {
      var cid := labels[i];
      var stable;
      stable, taken := Alloc(cid, reserved, taken);
      OneMoreMapped(mapping, labels, i, reserved, stable);
      mapping := mapping[cid := stable];
      var size := |Members(after, cid)|;
      events := events + [Event(Formed, stable, [], None, size, size)];
    }
  }

  lemma NothingMapped(labels: seq<int>, reserved: set<int>)
    ensures IsFirstRunMapping(map[], labels, 0, reserved) && Given(map[], labels, 0) == {}
  {
  }

  lemma {:induction false} OneMoreMapped(mapping: map<int, int>, labels: seq<int>, i: nat, reserved: set<int>, stable: int)
    requires i < |labels| && Ascending(labels) && IsFirstRunMapping(mapping, labels, i, reserved)
    requires IsFirstFree(stable, labels[i], reserved + Given(mapping, labels, i))
    ensures var m := mapping[labels[i] := stable];
      IsFirstRunMapping(m, labels, i + 1, reserved) && Given(m, labels, i + 1) == Given(mapping, labels, i) + {stable}
  {
    hide IsFirstFree, Given, FirstLabels;
    var m := mapping[labels[i] := stable];
    forall j | 0 <= j < i ensures labels[j] in m && IsFirstFree(m[labels[j]], labels[j], reserved + Given(m, labels, j)) {
      EarlierMapped(mapping, labels, i, reserved, stable, j);
    }
    SameGiven(m, mapping, labels, i);
    GivenGrows(m, labels, i);
    MoreLabels(labels, i);
    assert m.Keys == mapping.Keys + {labels[i]};
  }

  /** Mapping one more label leaves the earlier ones as they are. */
  lemma {:induction false} EarlierMapped(mapping: map<int, int>, labels: seq<int>, i: nat, reserved: set<int>, stable: int, j: nat)
    requires j < i < |labels| && Ascending(labels) && IsFirstRunMapping(mapping, labels, i, reserved)
    ensures var m := mapping[labels[i] := stable];
      labels[j] in m && IsFirstFree(m[labels[j]], labels[j], reserved + Given(m, labels, j))
  {
    hide IsFirstFree, Given, FirstLabels;
    assert labels[j] != labels[i];
    SameGiven(mapping[labels[i] := stable], mapping, labels, j);
  }

  lemma MoreLabels(labels: seq<int>, i: nat)
    requires i < |labels|
    ensures FirstLabels(labels, i + 1) == FirstLabels(labels, i) + {labels[i]}
  {
  }

  lemma GivenGrows(m: map<int, int>, labels: seq<int>, i: nat)
    requires i < |labels| && labels[i] in m
    ensures Given(m, labels, i + 1) == Given(m, labels, i) + {m[labels[i]]}
  {
  }

  lemma SameGiven(m: map<int, int>, mapping: map<int, int>, labels: seq<int>, a: nat)
    requires a <= |labels| && forall j :: 0 <= j < a ==> labels[j] in mapping && labels[j] in m && m[labels[j]] == mapping[labels[j]]
    ensures Given(m, labels, a) == Given(mapping, labels, a)
  {
  }

  /** The source's function, when no centroids are passed.  `reserved` may come as any collection. */
  method StabilizeIds(before: Assignment, after: Assignment, anchored: set<int>, reserved: seq<int>)
      returns (mapping: map<int, int>, events: seq<Event>, lineage: seq<Lineage>)
    requires IsDict(before) && IsDict(after)
    ensures IsResult(mapping, events, lineage, before, after, anchored, set x | x in reserved)
  {
    hide Members, Greedy, IsFirstRun, IsLineage, FormedEvents, DissolvedEvents, WithFormed, MatchEvents, AllEdges, MappingOf, UsedNew, UsedOld, Keys;
    var reservedSet := set x | x in reserved;
    if before == [] {
      mapping, events := FirstRun(after, reservedSet);
      lineage := [];
    } else {
      var oldKeys, oldClusters := BuildClusters(before);
      var newKeys, newClusters := BuildClusters(after);
      KeysAreLabels(before);
      var matches := CollectMatches(newKeys, newClusters, oldKeys, oldClusters, anchored, before, after);
      var sorted := SortEdges(matches);
      SortEdgesSorts(matches);
      EdgesAreAdmissible(newKeys, oldKeys, before, after, anchored);
      var matchedNew, matchedOld, matchEvents;
      mapping, matchedNew, matchedOld, matchEvents := GreedyMatch(sorted, newClusters, oldClusters, before, after);
      var known := oldKeys + newKeys + reserved;
      var next := NextId(known);
      assert (set x | x in known) == Known(before, after, reservedSet);
      var formedEvents;
      mapping, formedEvents := FormNew(newKeys, newClusters, matchedNew, mapping, next, reservedSet, after);
      var goneEvents;
      goneEvents, lineage := Dissolve(oldKeys, oldClusters, matchedOld, mapping, before, after);
      events := matchEvents + formedEvents + goneEvents;
      assert IsLaterRun(mapping, events, lineage, before, after, anchored, reservedSet, next);
    }
  }
}
