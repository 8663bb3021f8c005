/** What the greedy matching of `stabilize_ids` guarantees, and when a cluster must keep its id. */
module StabilizeMatching {
  import opened Clusters
  import opened GreedyMatching
  import opened StabilizeSpec

  /** A pair of a new and an old cluster that reaches its threshold. */
  ghost predicate Admissible(e: Edge, before: Assignment, after: Assignment, anchored: set<int>) {
    && e.newId in Keys(after) && e.oldId in Keys(before)
    && e.score == Score(before, after, e.newId, e.oldId) >= Threshold(e.oldId, anchored)
  }

  lemma ChosenFacts(before: Assignment, after: Assignment, anchored: set<int>)
    ensures IsMatching(Chosen(before, after, anchored))
    ensures forall e :: e in Chosen(before, after, anchored) ==> Admissible(e, before, after, anchored)
  {
    hide Greedy, AllEdges, Score, Threshold, Keys;
    var edges := AllEdges(Keys(after), Keys(before), before, after, anchored);
    EdgesAreAdmissible(Keys(after), Keys(before), before, after, anchored);
    SortEdgesSorts(edges);
    GreedyIsMatching(SortEdges(edges), {}, {});
  }

  /** Half approximation: no one-to-one choice of admissible pairs scores more than twice the chosen one. */
  lemma ChosenIsHalf(before: Assignment, after: Assignment, anchored: set<int>, m: seq<Edge>)
    requires IsMatching(m) && forall e :: e in m ==> Admissible(e, before, after, anchored)
    ensures Total(m) <= 2.0 * Total(Chosen(before, after, anchored))
  {
    hide Greedy, AllEdges, Score, Keys, Total;
    var edges := AllEdges(Keys(after), Keys(before), before, after, anchored);
    EdgesAreAdmissible(Keys(after), Keys(before), before, after, anchored);
    SortEdgesSorts(edges);
    GreedyIsHalf(SortEdges(edges), {}, {}, m);
  }

  /** An admissible pair that is not chosen lost a cluster to a chosen pair scoring at least as high. */
  lemma RejectedLost(before: Assignment, after: Assignment, anchored: set<int>, e: Edge) returns (f: Edge)
    requires Admissible(e, before, after, anchored)
    ensures f in Chosen(before, after, anchored) && Share(e, f) && f.score >= e.score && Above(f, e)
  {
    hide Greedy, AllEdges, Score, Keys, Threshold;
    var edges := AllEdges(Keys(after), Keys(before), before, after, anchored);
    EdgesAreAdmissible(Keys(after), Keys(before), before, after, anchored);
    SortEdgesSorts(edges);
    f := RejectedIsBlocked(SortEdges(edges), {}, {}, e);
  }

  // ----- the id map -----

  lemma {:induction false} MappingOfFacts(m: seq<Edge>)
    requires IsMatching(m)
    ensures MappingOf(m).Keys == UsedNew(m)
    ensures forall i :: 0 <= i < |m| ==> m[i].newId in MappingOf(m) && MappingOf(m)[m[i].newId] == m[i].oldId
  {
    hide UsedNew, UsedOld;
    if m == [] {
      assert UsedNew([]) == {} by { NothingUsed(); }
    } else {
      var front, e := m[..|m| - 1], m[|m| - 1];
      MappingOfFacts(front);
      UsedGrows(front, e);
      assert m == front + [e];
      assert forall i :: 0 <= i < |front| ==> m[i] == front[i];
    }
  }

  lemma NothingUsed()
    ensures UsedNew([]) == {}
  {
  }

  lemma {:induction false} RestFacts(keys: seq<int>, used: set<int>)
    ensures forall k :: k in Rest(keys, used) <==> k in keys && k !in used
    ensures Distinct(keys) ==> Distinct(Rest(keys, used))
  {
    if keys != [] {
      var front, k := keys[..|keys| - 1], keys[|keys| - 1];
      RestFacts(front, used);
      assert keys == front + [k];
      if Distinct(keys) {
        assert Distinct(front) && k !in front;
        DistinctAppend(Rest(front, used), k);
      }
    }
  }

  lemma DistinctAppend(s: seq<int>, k: int)
    requires Distinct(s) && k !in s
    ensures Distinct(s + [k])
  {
  }

  lemma {:induction false} WithFormedKeys(m: map<int, int>, formed: seq<int>, next: int)
    ensures forall n :: n in WithFormed(m, formed, next) <==> n in m || n in formed
    ensures forall n :: n in m && n !in formed ==> WithFormed(m, formed, next)[n] == m[n]
  {
    if formed != [] {
      var front, n := formed[..|formed| - 1], formed[|formed| - 1];
      WithFormedKeys(m, front, next);
      assert formed == front + [n];
    }
  }

  lemma {:induction false} WithFormedAt(m: map<int, int>, formed: seq<int>, next: int, i: nat)
    requires Distinct(formed) && i < |formed|
    ensures formed[i] in WithFormed(m, formed, next) && WithFormed(m, formed, next)[formed[i]] == next + i
  {
    if i < |formed| - 1 { WithFormedAt(m, formed[..|formed| - 1], next, i); }
  }

  /** Every new cluster is either matched, and takes its partner's id, or formed, and takes a new one. */
  lemma MappedOrFormed(before: Assignment, after: Assignment, anchored: set<int>, next: int)
    ensures var m, f := Chosen(before, after, anchored), FinalMapping(before, after, anchored, next);
      && f.Keys == (set n | n in Keys(after))
      && (forall e :: e in m ==> e.newId in f && f[e.newId] == e.oldId)
      && (forall n :: n in Keys(after) && n !in UsedNew(m) ==> n in f && f[n] >= next)
  {
    hide Chosen, Keys, MappingOf, WithFormed, Rest;
    var m := Chosen(before, after, anchored);
    ChosenFacts(before, after, anchored);
    MappingOfFacts(m);
    KeysAreLabels(after);
    RestFacts(Keys(after), UsedNew(m));
    WithFormedKeys(MappingOf(m), Rest(Keys(after), UsedNew(m)), next);
    forall e | e in m ensures e.newId in UsedNew(m) && MappingOf(m)[e.newId] == e.oldId { var i :| 0 <= i < |m| && m[i] == e; }
    forall n | n in UsedNew(m) ensures n in Keys(after) { var i :| 0 <= i < |m| && m[i].newId == n; assert m[i] in m; }
    assert FinalMapping(before, after, anchored, next).Keys == (set n | n in Keys(after)) by {
      forall n ensures n in FinalMapping(before, after, anchored, next).Keys <==> n in Keys(after) {}
    }
    forall n | n in Keys(after) && n !in UsedNew(m) ensures FinalMapping(before, after, anchored, next)[n] >= next {
      var formed := Rest(Keys(after), UsedNew(m));
      assert n in formed;
      var i :| 0 <= i < |formed| && formed[i] == n;
      WithFormedAt(MappingOf(m), formed, next, i);
    }
  }

  /** A new cluster that shares more than half with some old cluster always receives its id. */
  lemma MajorityKeepsId(before: Assignment, after: Assignment, anchored: set<int>, next: int, n: int, o: int)
    requires IsDict(before) && IsDict(after)
    requires n in Keys(after) && o in Keys(before) && Score(before, after, n, o) > 0.5
    ensures Edge(Score(before, after, n, o), n, o) in Chosen(before, after, anchored)
    ensures n in FinalMapping(before, after, anchored, next) && FinalMapping(before, after, anchored, next)[n] == o
  {
    hide Chosen, Keys, FinalMapping, Members, Jaccard;
    var e := Edge(Score(before, after, n, o), n, o);
    var f := RejectedLost(before, after, anchored, e);
    ChosenFacts(before, after, anchored);
    JaccardSymmetric(Members(after, n), Members(before, o));
    if f.newId == n && f.oldId != o {
      MembersDisjoint(before, o, f.oldId);
      MajorityIsExclusive(Members(after, n), Members(before, o), Members(before, f.oldId));
    } else if f.oldId == o && f.newId != n {
      MembersDisjoint(after, n, f.newId);
      MajorityIsExclusive(Members(before, o), Members(after, n), Members(after, f.newId));
    }
    MappedOrFormed(before, after, anchored, next);
  }

  // ----- pure renamings -----

  /** The new partition has exactly the clusters of the old one, under whatever labels. */
  ghost predicate IsRenaming(before: Assignment, after: Assignment) {
    && (forall n :: n in Keys(after) ==> exists o :: o in Keys(before) && Members(before, o) == Members(after, n))
    && (forall o :: o in Keys(before) ==> exists n :: n in Keys(after) && Members(before, o) == Members(after, n))
  }

  lemma SameClusterScore(before: Assignment, after: Assignment, n: int, o: int)
    requires o in Keys(before) && Members(before, o) == Members(after, n)
    ensures Score(before, after, n, o) == 1.0
  {
    KeysAreLabels(before);
    JaccardOfEqual(Members(before, o));
  }

  /** After a pure renaming the map recovers every old label. */
  lemma RenamingRecovers(before: Assignment, after: Assignment, anchored: set<int>, next: int, n: int, o: int)
    requires IsDict(before) && IsDict(after)
    requires n in Keys(after) && o in Keys(before) && Members(before, o) == Members(after, n)
    ensures n in FinalMapping(before, after, anchored, next) && FinalMapping(before, after, anchored, next)[n] == o
  {
    hide Score, FinalMapping, Keys, Members;
    SameClusterScore(before, after, n, o);
    MajorityKeepsId(before, after, anchored, next, n, o);
  }

  lemma RenamedIsChosen(before: Assignment, after: Assignment, anchored: set<int>, n: int, o: int)
    requires IsDict(before) && IsDict(after)
    requires n in Keys(after) && o in Keys(before) && Members(before, o) == Members(after, n)
    ensures n in UsedNew(Chosen(before, after, anchored)) && o in UsedOld(Chosen(before, after, anchored))
    ensures forall e :: e in Chosen(before, after, anchored) && e.newId == n ==> e.oldId == o
  {
    hide Chosen, Keys, Score, Members, FinalMapping, UsedNew, UsedOld;
    SameClusterScore(before, after, n, o);
    MajorityKeepsId(before, after, anchored, 0, n, o);
    UsedByChosen(Chosen(before, after, anchored), Edge(Score(before, after, n, o), n, o));
    MappedOrFormed(before, after, anchored, 0);
  }

  /** After a pure renaming every chosen pair joins equal clusters, and no cluster is left over. */
  lemma RenamingMatchesAll(before: Assignment, after: Assignment, anchored: set<int>)
    requires IsDict(before) && IsDict(after) && IsRenaming(before, after)
    ensures forall e :: e in Chosen(before, after, anchored) ==> Members(after, e.newId) == Members(before, e.oldId)
    ensures Rest(Keys(after), UsedNew(Chosen(before, after, anchored))) == []
    ensures Gone(before, after, anchored) == []
  {
    hide Chosen, Keys, Members, Rest, UsedNew, UsedOld, Admissible;
    var m := Chosen(before, after, anchored);
    forall n | n in Keys(after) ensures n in UsedNew(m) {
      var o :| o in Keys(before) && Members(before, o) == Members(after, n);
      RenamedIsChosen(before, after, anchored, n, o);
    }
    forall o | o in Keys(before) ensures o in UsedOld(m) {
      var n :| n in Keys(after) && Members(before, o) == Members(after, n);
      RenamedIsChosen(before, after, anchored, n, o);
    }
    forall e | e in m ensures Members(after, e.newId) == Members(before, e.oldId) {
      ChosenIsNew(before, after, anchored, e);
      var o :| o in Keys(before) && Members(before, o) == Members(after, e.newId);
      RenamedIsChosen(before, after, anchored, e.newId, o);
    }
    NoRest(Keys(after), UsedNew(m));
    NoRest(Keys(before), UsedOld(m));
  }

  lemma {:induction false} NoRest(keys: seq<int>, used: set<int>)
    requires forall i :: 0 <= i < |keys| ==> keys[i] in used
    ensures Rest(keys, used) == []
  {
    if keys != [] {
      var front, k := keys[..|keys| - 1], keys[|keys| - 1];
      assert keys == front + [k] && k in keys;
      NoRest(front, used);
    }
  }

  lemma ChosenIsNew(before: Assignment, after: Assignment, anchored: set<int>, e: Edge)
    requires e in Chosen(before, after, anchored)
    ensures e.newId in Keys(after)
  {
    hide Chosen, Keys;
    ChosenFacts(before, after, anchored);
  }

  lemma UsedByChosen(m: seq<Edge>, e: Edge)
    requires e in m
    ensures e.newId in UsedNew(m) && e.oldId in UsedOld(m)
  {
  }

  lemma {:induction false} EqualClustersAreStable(m: seq<Edge>, before: Assignment, after: Assignment)
    requires forall e :: e in m ==> Members(after, e.newId) == Members(before, e.oldId)
    ensures forall v :: v in MatchEvents(m, before, after) ==> v.kind == Stable && v.delta == 0
  {
    hide Members;
    if m != [] {
      EqualClustersAreStable(m[..|m| - 1], before, after);
      assert m[|m| - 1] in m;
    }
  }

  /** After a pure renaming there are only 'stable' events with no change of size, and no lineage. */
  lemma RenamingIsQuiet(mapping: map<int, int>, events: seq<Event>, lineage: seq<Lineage>,
                        before: Assignment, after: Assignment, anchored: set<int>, reserved: set<int>)
    requires IsDict(before) && IsDict(after) && IsRenaming(before, after) && before != []
    requires IsResult(mapping, events, lineage, before, after, anchored, reserved)
    ensures forall v :: v in events ==> v.kind == Stable && v.delta == 0
    ensures lineage == []
    ensures forall n, o :: n in Keys(after) && o in Keys(before) && Members(before, o) == Members(after, n) ==> n in mapping && mapping[n] == o
  {
    hide Chosen, Keys, Members, Rest, IsRenaming, MatchEvents, IsHighWater, FinalMapping, Gone;
    var next :| IsLaterRun(mapping, events, lineage, before, after, anchored, reserved, next);
    RenamingMatchesAll(before, after, anchored);
    EqualClustersAreStable(Chosen(before, after, anchored), before, after);
    assert events == MatchEvents(Chosen(before, after, anchored), before, after);
    forall n, o | n in Keys(after) && o in Keys(before) && Members(before, o) == Members(after, n) ensures n in mapping && mapping[n] == o {
      RenamingRecovers(before, after, anchored, next, n, o);
    }
  }
}
