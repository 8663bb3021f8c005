/** The hierarchy from end to end: four levels, noise relabelled, territories and realms stabilised. */
module StabilisedHierarchy {
  import opened SortedLabels
  import opened Vectors
  import opened Clusters
  import opened StabilizeSpec
  import opened StabilizeIdentity
  import opened Hierarchy
  import opened LiminalTerritories

  /** `{pid: label}` over the points of the run. */
  function Assigned(pids: seq<Pid>, labels: seq<nat>): Assignment
    requires |pids| == |labels|
  {
    seq(|pids|, i requires 0 <= i < |pids| => (pids[i], labels[i] as int))
  }

  lemma {:induction false} LabelIsKey(pids: seq<Pid>, labels: seq<nat>, x: nat)
    requires |pids| == |labels| && x in labels
    ensures x in Keys(Assigned(pids, labels)) && x in LabelsIn(Assigned(pids, labels))
  {
    hide Keys;
    var a := Assigned(pids, labels);
    var i :| 0 <= i < |labels| && labels[i] == x;
    assert a[i] == (pids[i], x as int) && LabelsIn(a)[i] == x;
    assert pids[i] in Members(a, x);
    KeysAreLabels(a);
  }

  /** Whichever path `stabilize_ids` took, its map covers the labels of the run and joins no two. */
  lemma {:induction false} MapIsInjective(mapping: map<int, int>, events: seq<Event>, lineage: seq<Lineage>,
                                          before: Assignment, pids: seq<Pid>, labels: seq<nat>, anchored: set<int>, reserved: set<int>)
    requires |pids| == |labels| && IsResult(mapping, events, lineage, before, Assigned(pids, labels), anchored, reserved)
    ensures InjectiveOn(labels, mapping)
  {
    hide Keys, IsFirstRun, FinalMapping, FinalEvents, IsLineage, IsHighWater, Known, LabelsIn, Assigned;
    var after := Assigned(pids, labels);
    forall x | x in labels ensures x in mapping {
      LabelIsKey(pids, labels, x);
      InMap(mapping, events, lineage, before, after, anchored, reserved, x);
    }
    forall x, y | x in labels && y in labels && x < y ensures mapping[x] != mapping[y] {
      LabelIsKey(pids, labels, x);
      LabelIsKey(pids, labels, y);
      Apart(mapping, events, lineage, before, after, anchored, reserved, x, y);
    }
  }

  lemma {:induction false} InMap(mapping: map<int, int>, events: seq<Event>, lineage: seq<Lineage>,
                                 before: Assignment, after: Assignment, anchored: set<int>, reserved: set<int>, x: nat)
    requires IsResult(mapping, events, lineage, before, after, anchored, reserved) && x in Keys(after) && x in LabelsIn(after)
    ensures x in mapping
  {
    hide Keys, FinalMapping, FinalEvents, IsLineage, IsHighWater, Known, LabelsIn, IsFirstFree, Given, Members;
    if before == [] {
      UniqueLabelsSorted(LabelsIn(after));
      assert x in UniqueLabels(LabelsIn(after));
    } else {
      var next :| IsLaterRun(mapping, events, lineage, before, after, anchored, reserved, next);
      IdsAreOldOrFresh(before, after, anchored, reserved, next, x);
    }
  }

  lemma {:induction false} Apart(mapping: map<int, int>, events: seq<Event>, lineage: seq<Lineage>,
                                 before: Assignment, after: Assignment, anchored: set<int>, reserved: set<int>, x: nat, y: nat)
    requires IsResult(mapping, events, lineage, before, after, anchored, reserved) && x < y
    requires x in Keys(after) && x in LabelsIn(after) && y in Keys(after) && y in LabelsIn(after)
    ensures x in mapping && y in mapping && mapping[x] != mapping[y]
  {
    hide Keys, FinalMapping, FinalEvents, IsLineage, IsHighWater, Known, LabelsIn, IsFirstRun;
    if before == [] {
      FirstRunKeepsOrder(mapping, events, after, reserved, x, y);
    } else {
      var next :| IsLaterRun(mapping, events, lineage, before, after, anchored, reserved, next);
      IdMapIsInjective(before, after, anchored, reserved, next, x, y);
    }
  }

  /** A clustering run followed by stabilisation: points of one stored territory lie in one stored
    * realm and are liminal together, and the stored territories are those of the run, renamed. */
  lemma {:induction false} StoredHierarchyNests(atoms: seq<int>, before: seq<nat>, h: Levels, embeddings: seq<Vec>, dim: nat, norm: Vec -> real,
                                                nTerritories: nat, nThemes: nat, nRealms: nat, pids: seq<Pid>,
                                                terrMap: map<int, int>, events: seq<Event>, lineage: seq<Lineage>, oldTerritories: Assignment,
                                                anchored: set<int>, reserved: set<int>, realmMap: map<int, int>)
    requires Embedded(atoms, embeddings, dim) && nTerritories >= 1 && nThemes >= 1 && nRealms >= 1
    requires IsParentLevel(before, atoms, embeddings, dim, norm, nTerritories)
    requires IsParentLevel(h.themes, before, embeddings, dim, norm, nThemes)
    requires IsParentLevel(h.realms, h.themes, embeddings, dim, norm, nRealms)
    requires |h.liminal| == |before| && h.territories == Relabelled(before, h.liminal, h.realms) && |pids| == |h.territories|
    requires IsResult(terrMap, events, lineage, oldTerritories, Assigned(pids, h.territories), anchored, reserved)
    ensures var stored := Mapped(h.territories, terrMap);
      && Determines(stored, Mapped(h.realms, realmMap)) && Determines(stored, h.liminal)
      && Determines(h.territories, stored) && Determines(stored, h.territories)
  {
    hide IsParentLevel, IsResult, Relabelled, InjectiveOn, Mapped, Assigned;
    LevelsNest(atoms, before, h.themes, h.realms, embeddings, dim, norm, nTerritories, nThemes, nRealms);
    RealmNestingSurvives(before, h.liminal, h.realms);
    MapIsInjective(terrMap, events, lineage, oldTerritories, pids, h.territories, anchored, reserved);
    StabilisedNestingSurvives(h.territories, h.realms, h.liminal, terrMap, realmMap);
  }
}
