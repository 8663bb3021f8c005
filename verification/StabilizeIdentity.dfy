/** Ids, sizes and lineage after `stabilize_ids`: who keeps an id, who gets a new one, and where
  * the points went. */
module StabilizeIdentity {
  import opened Wrappers
  import opened SortedLabels
  import opened Clusters
  import opened GreedyMatching
  import opened StabilizeSpec
  import opened StabilizeMatching

  // ----- ids -----

  /** A matched cluster takes an old id; a formed one an id seen nowhere before. */
  lemma IdsAreOldOrFresh(before: Assignment, after: Assignment, anchored: set<int>, reserved: set<int>, next: int, n: int)
    requires IsHighWater(next, Known(before, after, reserved)) && n in Keys(after)
    ensures n in FinalMapping(before, after, anchored, next)
    ensures var id := FinalMapping(before, after, anchored, next)[n];
      if n in UsedNew(Chosen(before, after, anchored)) then id in Keys(before) else id !in Known(before, after, reserved)
  {
    hide Chosen, Keys, FinalMapping;
    var m := Chosen(before, after, anchored);
    MappedOrFormed(before, after, anchored, next);
    if n in UsedNew(m) {
      ChosenFacts(before, after, anchored);
      var i :| 0 <= i < |m| && m[i].newId == n;
      assert m[i] in m;
    }
  }

  /** The id map is total on the new labels and gives no id twice. */
  lemma IdMapIsInjective(before: Assignment, after: Assignment, anchored: set<int>, reserved: set<int>, next: int, n: int, n': int)
    requires IsHighWater(next, Known(before, after, reserved)) && n in Keys(after) && n' in Keys(after) && n != n'
    ensures var f := FinalMapping(before, after, anchored, next);
      n in f && n' in f && f[n] != f[n']
  {
    hide Chosen, Keys, FinalMapping, Rest, WithFormed, MappingOf, UsedNew, Known;
    var m, f := Chosen(before, after, anchored), FinalMapping(before, after, anchored, next);
    IdsAreOldOrFresh(before, after, anchored, reserved, next, n);
    IdsAreOldOrFresh(before, after, anchored, reserved, next, n');
    OldIsKnown(before, after, reserved);
    if n in UsedNew(m) && n' in UsedNew(m) {
      MatchedIdsDiffer(before, after, anchored, next, n, n');
    } else if n !in UsedNew(m) && n' !in UsedNew(m) {
      FormedIdsDiffer(before, after, anchored, next, n, n');
    }
  }

  lemma OldIsKnown(before: Assignment, after: Assignment, reserved: set<int>)
    ensures forall o :: o in Keys(before) ==> o in Known(before, after, reserved)
  {
  }

  lemma MatchedIdsDiffer(before: Assignment, after: Assignment, anchored: set<int>, next: int, n: int, n': int)
    requires n in UsedNew(Chosen(before, after, anchored)) && n' in UsedNew(Chosen(before, after, anchored)) && n != n'
    ensures var f := FinalMapping(before, after, anchored, next); n in f && n' in f && f[n] != f[n']
  {
    hide Chosen, Keys, FinalMapping;
    var m := Chosen(before, after, anchored);
    ChosenFacts(before, after, anchored);
    MappedOrFormed(before, after, anchored, next);
    var i :| 0 <= i < |m| && m[i].newId == n;
    var j :| 0 <= j < |m| && m[j].newId == n';
    assert m[i] in m && m[j] in m;
  }

  lemma FormedIdsDiffer(before: Assignment, after: Assignment, anchored: set<int>, next: int, n: int, n': int)
    requires n in Keys(after) && n' in Keys(after) && n != n'
    requires n !in UsedNew(Chosen(before, after, anchored)) && n' !in UsedNew(Chosen(before, after, anchored))
    ensures var f := FinalMapping(before, after, anchored, next); n in f && n' in f && f[n] != f[n']
  {
    hide Chosen, Keys, Rest, WithFormed, MappingOf, UsedNew;
    var m := Chosen(before, after, anchored);
    var formed := Rest(Keys(after), UsedNew(m));
    KeysAreLabels(after);
    RestFacts(Keys(after), UsedNew(m));
    var i :| 0 <= i < |formed| && formed[i] == n;
    var j :| 0 <= j < |formed| && formed[j] == n';
    WithFormedAt(MappingOf(m), formed, next, i);
    WithFormedAt(MappingOf(m), formed, next, j);
  }

  /** On a first run ids avoid the reserved ones and keep the order of the labels. */
  lemma FirstRunKeepsOrder(mapping: map<int, int>, events: seq<Event>, after: Assignment, reserved: set<int>, c: int, d: int)
    requires IsFirstRun(mapping, events, after, reserved)
    requires c in LabelsIn(after) && d in LabelsIn(after) && c != -1 && d != -1 && c < d
    ensures c in mapping && d in mapping && c <= mapping[c] < mapping[d]
    ensures mapping[c] !in reserved && mapping[d] !in reserved
  {
    hide LabelsIn, Members, UniqueLabels, IsFirstRunMapping;
    var labels := UniqueLabels(LabelsIn(after));
    UniqueLabelsSorted(LabelsIn(after));
    assert c in labels && d in labels;
    var i :| 0 <= i < |labels| && labels[i] == c;
    var j :| 0 <= j < |labels| && labels[j] == d;
    EarlierLabelsFirst(mapping, labels, reserved, i, j);
  }

  lemma EarlierLabelsFirst(mapping: map<int, int>, labels: seq<int>, reserved: set<int>, i: nat, j: nat)
    requires IsFirstRunMapping(mapping, labels, |labels|, reserved) && Ascending(labels)
    requires i < |labels| && j < |labels| && labels[i] < labels[j]
    ensures labels[i] in mapping && labels[j] in mapping && labels[i] <= mapping[labels[i]] < mapping[labels[j]]
    ensures mapping[labels[i]] !in reserved && mapping[labels[j]] !in reserved
  {
    hide FirstLabels;
    assert i < j;
    GivenGrowsUp(mapping, labels, i, j);
    assert mapping[labels[j]] !in reserved + Given(mapping, labels, j);
  }

  lemma GivenGrowsUp(mapping: map<int, int>, labels: seq<int>, i: nat, j: nat)
    requires i < j <= |labels| && labels[i] in mapping
    ensures Given(mapping, labels, i) <= Given(mapping, labels, j) && mapping[labels[i]] in Given(mapping, labels, j)
  {
  }

  // ----- conservation of points -----

  function Sizes(a: Assignment, keys: seq<int>): int {
    if keys == [] then 0 else Sizes(a, keys[..|keys| - 1]) + |Members(a, keys[|keys| - 1])|
  }

  function SumDelta(events: seq<Event>): int {
    if events == [] then 0 else SumDelta(events[..|events| - 1]) + events[|events| - 1].delta
  }

  /** Points with a non-negative label. */
  function Clustered(a: Assignment): nat {
    if a == [] then 0 else Clustered(a[..|a| - 1]) + if a[|a| - 1].1 >= 0 then 1 else 0
  }

  lemma {:induction false} SumDeltaOfBoth(s: seq<Event>, t: seq<Event>)
    ensures SumDelta(s + t) == SumDelta(s) + SumDelta(t)
  {
    if t == [] {
      assert s + t == s;
    } else {
      SumDeltaOfBoth(s, t[..|t| - 1]);
      assert (s + t)[..|s + t| - 1] == s + t[..|t| - 1];
    }
  }

  /** Sizes of the clusters on either side of a list of pairs. */
  function NewSizes(m: seq<Edge>, after: Assignment): int {
    if m == [] then 0 else NewSizes(m[..|m| - 1], after) + |Members(after, m[|m| - 1].newId)|
  }

  function OldSizes(m: seq<Edge>, before: Assignment): int {
    if m == [] then 0 else OldSizes(m[..|m| - 1], before) + |Members(before, m[|m| - 1].oldId)|
  }

  lemma {:induction false} MatchDeltas(m: seq<Edge>, before: Assignment, after: Assignment)
    ensures SumDelta(MatchEvents(m, before, after)) == NewSizes(m, after) - OldSizes(m, before)
  {
    hide Members;
    if m != [] {
      MatchDeltas(m[..|m| - 1], before, after);
      var v := MatchEvents(m, before, after);
      assert v[..|v| - 1] == MatchEvents(m[..|m| - 1], before, after);
    }
  }

  lemma {:induction false} FormedDeltas(formed: seq<int>, next: int, after: Assignment)
    ensures SumDelta(FormedEvents(formed, next, after)) == Sizes(after, formed)
  {
    hide Members;
    if formed != [] {
      FormedDeltas(formed[..|formed| - 1], next, after);
      var v := FormedEvents(formed, next, after);
      assert v[..|v| - 1] == FormedEvents(formed[..|formed| - 1], next, after);
    }
  }

  lemma {:induction false} DissolvedDeltas(gone: seq<int>, before: Assignment)
    ensures SumDelta(DissolvedEvents(gone, before)) == -Sizes(before, gone)
  {
    hide Members;
    if gone != [] {
      DissolvedDeltas(gone[..|gone| - 1], before);
      var v := DissolvedEvents(gone, before);
      assert v[..|v| - 1] == DissolvedEvents(gone[..|gone| - 1], before);
    }
  }

  lemma {:induction false} SizesOfLonger(a: Assignment, keys: seq<int>, k: int)
    ensures Sizes(a, keys + [k]) == Sizes(a, keys) + |Members(a, k)|
  {
  }

  lemma {:induction false} RestWithOneMore(a: Assignment, keys: seq<int>, used: set<int>, x: int)
    requires Distinct(keys) && x !in used
    ensures Sizes(a, Rest(keys, used)) == Sizes(a, Rest(keys, used + {x})) + if x in keys then |Members(a, x)| else 0
  {
    hide Members, Rest;
    if keys == [] {
      assert Rest([], used) == [] == Rest([], used + {x}) by { NoKeys(used); NoKeys(used + {x}); }
    } else {
      var front, k := keys[..|keys| - 1], keys[|keys| - 1];
      assert keys == front + [k] && k !in front;
      RestWithOneMore(a, front, used, x);
      RestOfLonger(front, k, used);
      RestOfLonger(front, k, used + {x});
      SizesOfLonger(a, Rest(front, used), k);
      SizesOfLonger(a, Rest(front, used + {x}), k);
    }
  }

  lemma NoKeys(used: set<int>)
    ensures Rest([], used) == []
  {
  }

  lemma RestOfLonger(front: seq<int>, k: int, used: set<int>)
    ensures Rest(front + [k], used) == if k in used then Rest(front, used) else Rest(front, used) + [k]
  {
  }

  lemma {:induction false} NothingUsedRest(keys: seq<int>)
    ensures Rest(keys, {}) == keys
  {
    if keys != [] { NothingUsedRest(keys[..|keys| - 1]); }
  }

  lemma {:induction false} NewSizesSplit(m: seq<Edge>, after: Assignment, keys: seq<int>)
    requires IsMatching(m) && Distinct(keys) && forall i :: 0 <= i < |m| ==> m[i].newId in keys
    ensures Sizes(after, keys) == NewSizes(m, after) + Sizes(after, Rest(keys, UsedNew(m)))
  {
    hide Members, UsedNew, UsedOld;
    if m == [] {
      NothingUsed();
      NothingUsedRest(keys);
    } else {
      var front, e := m[..|m| - 1], m[|m| - 1];
      assert m == front + [e];
      NewSizesSplit(front, after, keys);
      UsedGrows(front, e);
      NotYetUsed(front, e);
      RestWithOneMore(after, keys, UsedNew(front), e.newId);
    }
  }

  lemma {:induction false} OldSizesSplit(m: seq<Edge>, before: Assignment, keys: seq<int>)
    requires IsMatching(m) && Distinct(keys) && forall i :: 0 <= i < |m| ==> m[i].oldId in keys
    ensures Sizes(before, keys) == OldSizes(m, before) + Sizes(before, Rest(keys, UsedOld(m)))
  {
    hide Members, UsedNew, UsedOld;
    if m == [] {
      NothingUsedOld();
      NothingUsedRest(keys);
    } else {
      var front, e := m[..|m| - 1], m[|m| - 1];
      assert m == front + [e];
      OldSizesSplit(front, before, keys);
      UsedGrows(front, e);
      NotYetUsed(front, e);
      RestWithOneMore(before, keys, UsedOld(front), e.oldId);
    }
  }

  lemma NothingUsedOld()
    ensures UsedOld([]) == {}
  {
  }

  lemma NotYetUsed(m: seq<Edge>, e: Edge)
    requires IsMatching(m + [e])
    ensures e.newId !in UsedNew(m) && e.oldId !in UsedOld(m)
  {
    var r := m + [e];
    assert r[|m|] == e && forall i :: 0 <= i < |m| ==> r[i] == m[i];
  }

  lemma {:induction false} SizesAreClustered(a: Assignment)
    requires IsDict(a)
    ensures Sizes(a, Keys(a)) == Clustered(a)
  {
    if a != [] {
      var b, e := a[..|a| - 1], a[|a| - 1];
      assert a == b + [e];
      SizesAreClustered(b);
      KeysAreLabels(b);
      SizesWithPoint(b, e, Keys(b));
      if e.1 >= 0 && e.1 !in Keys(b) {
        SizesOfLonger(a, Keys(b), e.1);
        MembersOfLonger(b, e, e.1);
      }
    }
  }

  lemma {:induction false} SizesWithPoint(b: Assignment, e: (Pid, int), keys: seq<int>)
    requires IsDict(b + [e]) && Distinct(keys)
    ensures Sizes(b + [e], keys) == Sizes(b, keys) + if e.1 in keys then 1 else 0
  {
    if keys != [] {
      var front, k := keys[..|keys| - 1], keys[|keys| - 1];
      assert keys == front + [k] && k !in front;
      SizesWithPoint(b, e, front);
      MembersOfLonger(b, e, k);
      NewPoint(b, e, k);
    }
  }

  lemma NewPoint(b: Assignment, e: (Pid, int), c: int)
    requires IsDict(b + [e])
    ensures e.0 !in Members(b, c)
  {
    var a := b + [e];
    assert a[|b|] == e && forall i :: 0 <= i < |b| ==> a[i] == b[i];
  }

  /** Points with a label, a negative one included. */
  function Labelled(a: Assignment): nat {
    if a == [] then 0 else Labelled(a[..|a| - 1]) + if a[|a| - 1].1 != -1 then 1 else 0
  }

  lemma {:induction false} SizesAreLabelled(a: Assignment, keys: seq<int>)
    requires IsDict(a) && Distinct(keys) && -1 !in keys && forall i :: 0 <= i < |a| && a[i].1 != -1 ==> a[i].1 in keys
    ensures Sizes(a, keys) == Labelled(a)
  {
    if a == [] {
      NoSizes(keys);
    } else {
      var b, e := a[..|a| - 1], a[|a| - 1];
      assert a == b + [e];
      SizesAreLabelled(b, keys);
      SizesWithPoint(b, e, keys);
    }
  }

  lemma {:induction false} NoSizes(keys: seq<int>)
    ensures Sizes([], keys) == 0
  {
    if keys != [] { NoSizes(keys[..|keys| - 1]); }
  }

  lemma {:induction false} LabelledIsClustered(a: Assignment)
    requires forall i :: 0 <= i < |a| ==> a[i].1 >= -1
    ensures Labelled(a) == Clustered(a)
  {
    if a != [] { LabelledIsClustered(a[..|a| - 1]); }
  }

  lemma {:induction false} DeltasAreSizes(events: seq<Event>, labels: seq<int>, after: Assignment)
    requires |events| == |labels| && forall i :: 0 <= i < |labels| ==> events[i].delta == |Members(after, labels[i])|
    ensures SumDelta(events) == Sizes(after, labels)
  {
    hide Members;
    if labels != [] { DeltasAreSizes(events[..|events| - 1], labels[..|labels| - 1], after); }
  }

  lemma {:induction false} FirstDeltasAddUp(mapping: map<int, int>, events: seq<Event>, after: Assignment, reserved: set<int>)
    requires IsDict(after) && IsFirstRun(mapping, events, after, reserved)
    ensures SumDelta(events) == Labelled(after)
  {
    hide Members, UniqueLabels, IsFirstRunMapping;
    var labels := UniqueLabels(LabelsIn(after));
    UniqueLabelsSorted(LabelsIn(after));
    DeltasAreSizes(events, labels, after);
    forall i | 0 <= i < |after| && after[i].1 != -1 ensures after[i].1 in labels { assert LabelsIn(after)[i] == after[i].1; }
    SizesAreLabelled(after, labels);
  }

  lemma LaterDeltasAddUp(mapping: map<int, int>, events: seq<Event>, lineage: seq<Lineage>,
                         before: Assignment, after: Assignment, anchored: set<int>, reserved: set<int>, next: int)
    requires IsDict(before) && IsDict(after) && IsLaterRun(mapping, events, lineage, before, after, anchored, reserved, next)
    ensures SumDelta(events) == Clustered(after) - Clustered(before)
  {
    hide Chosen, Keys, Members, IsHighWater, FinalMapping, IsLineage, Rest, UsedNew, UsedOld, MatchEvents, FormedEvents, DissolvedEvents;
    var m := Chosen(before, after, anchored);
    ChosenFacts(before, after, anchored);
    forall i | 0 <= i < |m| ensures m[i].newId in Keys(after) && m[i].oldId in Keys(before) { assert m[i] in m; }
    KeysAreLabels(before);
    KeysAreLabels(after);
    NewSizesSplit(m, after, Keys(after));
    OldSizesSplit(m, before, Keys(before));
    var formed, gone := Rest(Keys(after), UsedNew(m)), Gone(before, after, anchored);
    MatchDeltas(m, before, after);
    FormedDeltas(formed, next, after);
    DissolvedDeltas(gone, before);
    SumDeltaOfBoth(MatchEvents(m, before, after) + FormedEvents(formed, next, after), DissolvedEvents(gone, before));
    SumDeltaOfBoth(MatchEvents(m, before, after), FormedEvents(formed, next, after));
    SizesAreClustered(before);
    SizesAreClustered(after);
  }

  /** The changes over all events add up to the change in the number of clustered points.  A first
    * run also counts the points of a label below -1, which only later runs leave out. */
  lemma DeltasAddUp(mapping: map<int, int>, events: seq<Event>, lineage: seq<Lineage>,
                    before: Assignment, after: Assignment, anchored: set<int>, reserved: set<int>)
    requires IsDict(before) && IsDict(after) && IsResult(mapping, events, lineage, before, after, anchored, reserved)
    ensures SumDelta(events) == (if before == [] then Labelled(after) else Clustered(after)) - Clustered(before)
    ensures (forall i :: 0 <= i < |after| ==> after[i].1 >= -1) ==> SumDelta(events) == Clustered(after) - Clustered(before)
  {
    hide IsFirstRun, IsLaterRun;
    if before == [] {
      FirstDeltasAddUp(mapping, events, after, reserved);
      if forall i :: 0 <= i < |after| ==> after[i].1 >= -1 { LabelledIsClustered(after); }
    } else {
      var next :| IsLaterRun(mapping, events, lineage, before, after, anchored, reserved, next);
      LaterDeltasAddUp(mapping, events, lineage, before, after, anchored, reserved, next);
    }
  }

  // ----- lineage -----

  lemma {:induction false} LabelOfMembers(a: Assignment, p: Pid, c: int)
    requires IsDict(a)
    ensures p in Members(a, c) <==> LabelOf(a, p) == Some(c)
  {
    if a != [] {
      LabelOfMembers(a[1..], p, c);
      assert a == [a[0]] + a[1..];
      if p in Members(a, c) {
        var i :| 0 <= i < |a| && a[i].1 == c && a[i].0 == p;
        if i > 0 { assert a[1..][i - 1] == a[i]; }
      }
      if p in Members(a[1..], c) {
        var i :| 0 <= i < |a| - 1 && a[1..][i].1 == c && a[1..][i].0 == p;
        assert a[i + 1].1 == c && a[i + 1].0 == p;
      }
      if a[0].0 == p && a[0].1 == c { assert p in Members(a, c); }
    }
  }

  /** Arrivals at a new cluster's id are exactly the points the two clusters share. */
  lemma ArrivalsAreShared(before: Assignment, after: Assignment, anchored: set<int>, reserved: set<int>, next: int, o: int, n: int)
    requires IsDict(after) && IsHighWater(next, Known(before, after, reserved)) && n in Keys(after)
    ensures var f := FinalMapping(before, after, anchored, next);
      n in f && Arrivals(Members(before, o), f[n], after, f) == Members(before, o) * Members(after, n)
  {
    hide FinalMapping, Keys, Known, IsHighWater;
    var f := FinalMapping(before, after, anchored, next);
    IdsAreOldOrFresh(before, after, anchored, reserved, next, n);
    KeysAreLabels(after);
    forall p ensures StableOf(p, after, f) == Some(f[n]) <==> p in Members(after, n) {
      LandsAt(before, after, anchored, reserved, next, p, n);
    }
  }

  lemma LandsAt(before: Assignment, after: Assignment, anchored: set<int>, reserved: set<int>, next: int, p: Pid, n: int)
    requires IsDict(after) && IsHighWater(next, Known(before, after, reserved)) && n in Keys(after)
    requires n in FinalMapping(before, after, anchored, next)
    ensures var f := FinalMapping(before, after, anchored, next);
      StableOf(p, after, f) == Some(f[n]) <==> p in Members(after, n)
  {
    hide FinalMapping, Keys, Known, IsHighWater, Members;
    LabelOfMembers(after, p, n);
    KeysAreLabels(after);
    match LabelOf(after, p)
    case None =>
    case Some(c) =>
      LabelOfMembers(after, p, c);
      if c >= 0 && c != n { IdMapIsInjective(before, after, anchored, reserved, next, c, n); }
  }

  /** A dissolved cluster with survivors has exactly one dominant row, for a successor no other beats. */
  lemma {:induction false} OneDominantSuccessor(rows: seq<Lineage>, o: int, x: set<Pid>, after: Assignment, mapping: map<int, int>)
    requires IsTopThree(rows, o, x, after, mapping)
    ensures rows == [] <==> Successors(x, after, mapping) == {}
    ensures rows != [] ==> rows[0].dominant && forall i :: 0 < i < |rows| ==> !rows[i].dominant
    ensures rows != [] ==> forall s :: s in Successors(x, after, mapping) ==> |Arrivals(x, s, after, mapping)| <= rows[0].count
  {
    hide Arrivals, Successors;
    if rows != [] {
      forall s | s in Successors(x, after, mapping) ensures |Arrivals(x, s, after, mapping)| <= rows[0].count {
        if Listed(rows, s) {
          var j :| 0 <= j < |rows| && rows[j].newId == s;
          assert IsSuccessorRow(rows[j], o, x, after, mapping);
        }
      }
    }
  }

  /** Lineage row `d` is the dominant one of dissolved cluster `o`. */
  ghost predicate IsDominantRow(rows: seq<Lineage>, d: nat, o: int) { d < |rows| && rows[d].oldId == o && rows[d].dominant }

  /** In a result, a dissolved cluster has exactly one dominant row if any of its points ended in a
    * cluster, and none otherwise; the successor it names shares the most points with it. */
  lemma {:induction false} DominantOfDissolved(mapping: map<int, int>, events: seq<Event>, lineage: seq<Lineage>,
                                               before: Assignment, after: Assignment, anchored: set<int>, reserved: set<int>, o: int)
    requires IsDict(after) && before != [] && o in Gone(before, after, anchored)
    requires IsResult(mapping, events, lineage, before, after, anchored, reserved)
    ensures (exists d: nat :: IsDominantRow(lineage, d, o)) <==> exists n :: n in Keys(after) && Members(before, o) * Members(after, n) != {}
    ensures forall d: nat, e: nat :: IsDominantRow(lineage, d, o) && IsDominantRow(lineage, e, o) ==> d == e
    ensures forall d: nat, n :: IsDominantRow(lineage, d, o) && n in Keys(after) ==> |Members(before, o) * Members(after, n)| <= lineage[d].count
    ensures forall d: nat :: IsDominantRow(lineage, d, o) ==>
      exists n :: n in Keys(after) && n in mapping && lineage[d].newId == mapping[n] && lineage[d].count == |Members(before, o) * Members(after, n)|
  {
    hide FinalMapping, FinalEvents, Keys, Known, IsHighWater, Members, IsLineage, Gone, IsTopThree, Arrivals, Successors;
    var next :| IsLaterRun(mapping, events, lineage, before, after, anchored, reserved, next);
    GoneIsDistinct(before, after, anchored);
    var lo, hi := BlockOfDissolved(lineage, Gone(before, after, anchored), before, after, mapping, o);
    var x, rows := Members(before, o), lineage[lo..hi];
    OneDominantSuccessor(rows, o, x, after, mapping);
    assert forall d :: lo <= d < hi ==> lineage[d] == rows[d - lo];
    forall n | n in Keys(after) ensures n in mapping && Arrivals(x, mapping[n], after, mapping) == x * Members(after, n) {
      ArrivalsAreShared(before, after, anchored, reserved, next, o, n);
    }
    SuccessorsAreNew(mapping, x, before, after, anchored, reserved, next);
    if rows != [] {
      assert IsDominantRow(lineage, lo, o);
      FirstRowCounts(rows, o, x, after, mapping);
    }
    forall n | n in Keys(after) && x * Members(after, n) != {} ensures mapping[n] in Successors(x, after, mapping) {
      ArrivalIsSuccessor(x, mapping[n], after, mapping);
    }
  }

  lemma FirstRowCounts(rows: seq<Lineage>, o: int, x: set<Pid>, after: Assignment, mapping: map<int, int>)
    requires IsTopThree(rows, o, x, after, mapping) && rows != []
    ensures rows[0].newId in Successors(x, after, mapping) && rows[0].count == |Arrivals(x, rows[0].newId, after, mapping)|
  {
    assert IsSuccessorRow(rows[0], o, x, after, mapping);
  }

  lemma ArrivalIsSuccessor(x: set<Pid>, s: int, after: Assignment, mapping: map<int, int>)
    ensures Arrivals(x, s, after, mapping) != {} ==> s in Successors(x, after, mapping)
  {
    if p :| p in Arrivals(x, s, after, mapping) { assert StableOf(p, after, mapping) == Some(s); }
  }

  /** Every successor is the id of a new cluster that shares a point with the old one. */
  lemma {:induction false} SuccessorsAreNew(mapping: map<int, int>, x: set<Pid>, before: Assignment, after: Assignment, anchored: set<int>, reserved: set<int>, next: int)
    requires IsDict(after) && IsHighWater(next, Known(before, after, reserved)) && mapping == FinalMapping(before, after, anchored, next)
    ensures forall s :: s in Successors(x, after, mapping) ==>
      exists n :: n in Keys(after) && n in mapping && mapping[n] == s && x * Members(after, n) != {}
  {
    hide FinalMapping, Known, IsHighWater;
    KeysAreLabels(after);
    forall s | s in Successors(x, after, mapping)
      ensures exists n :: n in Keys(after) && n in mapping && mapping[n] == s && x * Members(after, n) != {}
    {
      var p :| p in x && StableOf(p, after, mapping) == Some(s);
      var c := LabelOf(after, p).value;
      LabelOfMembers(after, p, c);
      assert p in x * Members(after, c);
      IdsAreOldOrFresh(before, after, anchored, reserved, next, c);
    }
  }

  /** The rows of each dissolved cluster are one consecutive top-three block. */
  lemma {:induction false} BlockOfDissolved(rows: seq<Lineage>, gone: seq<int>, before: Assignment, after: Assignment, mapping: map<int, int>, o: int)
      returns (lo: nat, hi: nat)
    requires IsLineage(rows, gone, before, after, mapping) && Distinct(gone) && o in gone
    ensures lo <= hi <= |rows| && IsTopThree(rows[lo..hi], o, Members(before, o), after, mapping)
    ensures forall i :: 0 <= i < |rows| ==> (rows[i].oldId == o <==> lo <= i < hi)
    decreases |gone|
  {
    hide IsTopThree, Members;
    var front, g := gone[..|gone| - 1], gone[|gone| - 1];
    var k :| 0 <= k <= |rows| && IsLineage(rows[..k], front, before, after, mapping)
      && IsTopThree(rows[k..], g, Members(before, g), after, mapping);
    assert gone == front + [g];
    BlockIsOf(rows[k..], g, Members(before, g), after, mapping);
    RowsAreOfGone(rows[..k], front, before, after, mapping);
    assert forall i :: k <= i < |rows| ==> rows[i] == rows[k..][i - k];
    assert forall i :: 0 <= i < k ==> rows[i] == rows[..k][i];
    if o == g {
      lo, hi := k, |rows|;
      assert rows[k..|rows|] == rows[k..] && g !in front;
    } else {
      lo, hi := BlockOfDissolved(rows[..k], front, before, after, mapping, o);
      assert rows[..k][lo..hi] == rows[lo..hi];
    }
  }

  lemma {:induction false} RowsAreOfGone(rows: seq<Lineage>, gone: seq<int>, before: Assignment, after: Assignment, mapping: map<int, int>)
    requires IsLineage(rows, gone, before, after, mapping)
    ensures forall i :: 0 <= i < |rows| ==> rows[i].oldId in gone
    decreases |gone|
  {
    hide IsTopThree, Members;
    if gone != [] {
      var front, g := gone[..|gone| - 1], gone[|gone| - 1];
      var k :| 0 <= k <= |rows| && IsLineage(rows[..k], front, before, after, mapping)
        && IsTopThree(rows[k..], g, Members(before, g), after, mapping);
      RowsAreOfGone(rows[..k], front, before, after, mapping);
      BlockIsOf(rows[k..], g, Members(before, g), after, mapping);
      assert gone == front + [g];
      forall i | 0 <= i < |rows| ensures rows[i].oldId in gone {
        if i < k { assert rows[i] == rows[..k][i]; } else { assert rows[i] == rows[k..][i - k]; }
      }
    }
  }

  /** Points the lineage says left old cluster `o`. */
  function CountOut(rows: seq<Lineage>, o: int): nat {
    if rows == [] then 0 else CountOut(rows[..|rows| - 1], o) + if rows[|rows| - 1].oldId == o then rows[|rows| - 1].count else 0
  }

  /** Points the lineage says arrived at id `s`. */
  function CountInto(rows: seq<Lineage>, s: int): nat {
    if rows == [] then 0 else CountInto(rows[..|rows| - 1], s) + if rows[|rows| - 1].newId == s then rows[|rows| - 1].count else 0
  }

  lemma {:induction false} CountsOfBoth(r: seq<Lineage>, t: seq<Lineage>, o: int)
    ensures CountOut(r + t, o) == CountOut(r, o) + CountOut(t, o)
    ensures CountInto(r + t, o) == CountInto(r, o) + CountInto(t, o)
  {
    if t == [] {
      assert r + t == r;
    } else {
      CountsOfBoth(r, t[..|t| - 1], o);
      assert (r + t)[..|r + t| - 1] == r + t[..|t| - 1];
    }
  }

  /** All arrivals at the ids of the first `k` rows. */
  ghost function Covered(rows: seq<Lineage>, k: nat, x: set<Pid>, after: Assignment, mapping: map<int, int>): set<Pid>
    requires k <= |rows|
  {
    set p | p in x && exists i :: 0 <= i < k && StableOf(p, after, mapping) == Some(rows[i].newId)
  }

  lemma CoveredGrows(rows: seq<Lineage>, k: nat, x: set<Pid>, after: Assignment, mapping: map<int, int>)
    requires k < |rows| && forall i :: 0 <= i < k ==> rows[i].newId != rows[k].newId
    ensures |Covered(rows, k + 1, x, after, mapping)| == |Covered(rows, k, x, after, mapping)| + |Arrivals(x, rows[k].newId, after, mapping)|
  {
    hide StableOf;
    var u, a := Covered(rows, k, x, after, mapping), Arrivals(x, rows[k].newId, after, mapping);
    assert Covered(rows, k + 1, x, after, mapping) == u + a;
    assert u !! a;
  }

  lemma {:induction false} BlockCountsCovered(rows: seq<Lineage>, k: nat, o: int, x: set<Pid>, after: Assignment, mapping: map<int, int>)
    requires IsTopThree(rows, o, x, after, mapping) && k <= |rows|
    ensures CountOut(rows[..k], o) == |Covered(rows, k, x, after, mapping)|
  {
    hide Arrivals, Successors, Covered;
    if k == 0 {
      assert Covered(rows, 0, x, after, mapping) == {} by { NothingCovered(rows, x, after, mapping); }
    } else {
      BlockCountsCovered(rows, k - 1, o, x, after, mapping);
      CoveredGrows(rows, k - 1, x, after, mapping);
      assert rows[..k][..k - 1] == rows[..k - 1] && rows[..k][k - 1] == rows[k - 1];
    }
  }

  lemma NothingCovered(rows: seq<Lineage>, x: set<Pid>, after: Assignment, mapping: map<int, int>)
    ensures Covered(rows, 0, x, after, mapping) == {}
  {
  }

  lemma BlockCountAtMost(rows: seq<Lineage>, o: int, x: set<Pid>, after: Assignment, mapping: map<int, int>)
    requires IsTopThree(rows, o, x, after, mapping)
    ensures CountOut(rows, o) <= |x|
  {
    hide IsTopThree;
    BlockCountsCovered(rows, |rows|, o, x, after, mapping);
    assert rows[..|rows|] == rows;
    SubsetSize(Covered(rows, |rows|, x, after, mapping), x);
  }

  lemma {:induction false} OtherBlocksCountNothing(rows: seq<Lineage>, o: int)
    requires forall i :: 0 <= i < |rows| ==> rows[i].oldId != o
    ensures CountOut(rows, o) == 0
  {
    if rows != [] { OtherBlocksCountNothing(rows[..|rows| - 1], o); }
  }

  /** Lineage out of an old cluster never counts more points than it had. */
  lemma {:induction false} OutNeverExceedsSize(rows: seq<Lineage>, gone: seq<int>, before: Assignment, after: Assignment, mapping: map<int, int>, o: int)
    requires IsLineage(rows, gone, before, after, mapping) && Distinct(gone)
    ensures CountOut(rows, o) <= if o in gone then |Members(before, o)| else 0
    decreases |gone|
  {
    hide IsTopThree, Members;
    if gone == [] {
    } else {
      var front, g := gone[..|gone| - 1], gone[|gone| - 1];
      var k :| 0 <= k <= |rows| && IsLineage(rows[..k], front, before, after, mapping)
        && IsTopThree(rows[k..], g, Members(before, g), after, mapping);
      OutNeverExceedsSize(rows[..k], front, before, after, mapping, o);
      CountsOfBoth(rows[..k], rows[k..], o);
      assert rows[..k] + rows[k..] == rows && gone == front + [g];
      if g == o {
        assert o !in front;
        BlockCountAtMost(rows[k..], g, Members(before, g), after, mapping);
      } else {
        BlockIsOf(rows[k..], g, Members(before, g), after, mapping);
        OtherBlocksCountNothing(rows[k..], o);
      }
    }
  }

  lemma BlockIsOf(rows: seq<Lineage>, o: int, x: set<Pid>, after: Assignment, mapping: map<int, int>)
    requires IsTopThree(rows, o, x, after, mapping)
    ensures forall i :: 0 <= i < |rows| ==> rows[i].oldId == o
  {
  }

  lemma {:induction false} BlockIntoAtMost(rows: seq<Lineage>, k: nat, o: int, x: set<Pid>, after: Assignment, mapping: map<int, int>, s: int)
    requires IsTopThree(rows, o, x, after, mapping) && k <= |rows|
    ensures CountInto(rows[..k], s) <= |Arrivals(x, s, after, mapping)|
    ensures (forall i :: 0 <= i < k ==> rows[i].newId != s) ==> CountInto(rows[..k], s) == 0
  {
    hide Arrivals, Successors;
    if k > 0 {
      BlockIntoAtMost(rows, k - 1, o, x, after, mapping, s);
      assert rows[..k][..k - 1] == rows[..k - 1] && rows[..k][k - 1] == rows[k - 1];
      assert IsSuccessorRow(rows[k - 1], o, x, after, mapping);
    }
  }

  /** Members of the listed old clusters that ended in id `s`. */
  ghost function ArrivedFrom(gone: seq<int>, before: Assignment, after: Assignment, mapping: map<int, int>, s: int): set<Pid> {
    if gone == [] then {} else
      ArrivedFrom(gone[..|gone| - 1], before, after, mapping, s) + Arrivals(Members(before, gone[|gone| - 1]), s, after, mapping)
  }

  lemma {:induction false} ArrivedFromFacts(gone: seq<int>, before: Assignment, after: Assignment, mapping: map<int, int>, s: int)
    ensures forall p :: p in ArrivedFrom(gone, before, after, mapping, s) ==> StableOf(p, after, mapping) == Some(s)
    ensures forall p :: p in ArrivedFrom(gone, before, after, mapping, s) ==> exists i :: 0 <= i < |gone| && p in Members(before, gone[i])
  {
    hide StableOf, Members;
    if gone != [] {
      var front := gone[..|gone| - 1];
      ArrivedFromFacts(front, before, after, mapping, s);
      forall p | p in ArrivedFrom(gone, before, after, mapping, s) ensures exists i :: 0 <= i < |gone| && p in Members(before, gone[i]) {
        if p in ArrivedFrom(front, before, after, mapping, s) {
          var i :| 0 <= i < |front| && p in Members(before, front[i]);
          assert gone[i] == front[i];
        }
      }
    }
  }

  lemma {:induction false} IntoAtMostArrived(rows: seq<Lineage>, gone: seq<int>, before: Assignment, after: Assignment, mapping: map<int, int>, s: int)
    requires IsLineage(rows, gone, before, after, mapping) && Distinct(gone) && IsDict(before)
    ensures CountInto(rows, s) <= |ArrivedFrom(gone, before, after, mapping, s)|
    decreases |gone|
  {
    hide IsTopThree, Members, Arrivals, ArrivedFrom, IsDict;
    if gone != [] {
      var front, g := gone[..|gone| - 1], gone[|gone| - 1];
      var k :| 0 <= k <= |rows| && IsLineage(rows[..k], front, before, after, mapping)
        && IsTopThree(rows[k..], g, Members(before, g), after, mapping);
      IntoAtMostArrived(rows[..k], front, before, after, mapping, s);
      BlockArrives(rows[..k], rows[k..], front, g, before, after, mapping, s);
      assert rows[..k] + rows[k..] == rows && gone == front + [g];
    }
  }

  lemma BlockArrives(rows: seq<Lineage>, block: seq<Lineage>, front: seq<int>, g: int, before: Assignment, after: Assignment, mapping: map<int, int>, s: int)
    requires IsTopThree(block, g, Members(before, g), after, mapping) && Distinct(front + [g]) && IsDict(before)
    requires CountInto(rows, s) <= |ArrivedFrom(front, before, after, mapping, s)|
    ensures CountInto(rows + block, s) <= |ArrivedFrom(front + [g], before, after, mapping, s)|
  {
    hide IsTopThree, Members, Arrivals, CountInto, IsDict;
    CountsOfBoth(rows, block, s);
    BlockIntoAtMost(block, |block|, g, Members(before, g), after, mapping, s);
    assert block[..|block|] == block && (front + [g])[..|front|] == front;
    ArrivedDisjoint(front, g, before, after, mapping, s);
  }

  lemma ArrivedDisjoint(front: seq<int>, g: int, before: Assignment, after: Assignment, mapping: map<int, int>, s: int)
    requires IsDict(before) && Distinct(front + [g])
    ensures ArrivedFrom(front, before, after, mapping, s) !! Arrivals(Members(before, g), s, after, mapping)
  {
    hide StableOf, Members;
    ArrivedFromFacts(front, before, after, mapping, s);
    forall i | 0 <= i < |front| ensures Members(before, front[i]) !! Members(before, g) {
      assert (front + [g])[i] == front[i] && (front + [g])[|front|] == g;
      MembersDisjoint(before, front[i], g);
    }
  }

  /** Lineage into a new cluster never counts more points than it has. */
  lemma IntoNeverExceedsSize(mapping: map<int, int>, events: seq<Event>, lineage: seq<Lineage>,
                             before: Assignment, after: Assignment, anchored: set<int>, reserved: set<int>, n: int)
    requires IsDict(before) && IsDict(after) && before != [] && n in Keys(after)
    requires IsResult(mapping, events, lineage, before, after, anchored, reserved)
    ensures n in mapping && CountInto(lineage, mapping[n]) <= |Members(after, n)|
  {
    hide FinalMapping, FinalEvents, Keys, Known, IsHighWater, Members, IsLineage, Gone, StableOf;
    var next :| IsLaterRun(mapping, events, lineage, before, after, anchored, reserved, next);
    IdsAreOldOrFresh(before, after, anchored, reserved, next, n);
    var gone := Gone(before, after, anchored);
    GoneIsDistinct(before, after, anchored);
    IntoAtMostArrived(lineage, gone, before, after, mapping, mapping[n]);
    ArrivedFromFacts(gone, before, after, mapping, mapping[n]);
    forall p | p in ArrivedFrom(gone, before, after, mapping, mapping[n]) ensures p in Members(after, n) {
      LandsAt(before, after, anchored, reserved, next, p, n);
    }
    SubsetSize(ArrivedFrom(gone, before, after, mapping, mapping[n]), Members(after, n));
  }

  lemma GoneIsDistinct(before: Assignment, after: Assignment, anchored: set<int>)
    ensures Distinct(Gone(before, after, anchored))
  {
    hide Keys, Chosen;
    KeysAreLabels(before);
    RestFacts(Keys(before), UsedOld(Chosen(before, after, anchored)));
  }
}
