/** Stages 3 to 6 of `run_clustering`: the four levels, then noise moved into one liminal
  * territory per realm. */
module LiminalTerritories {
  import opened SortedLabels
  import opened Vectors
  import opened Hierarchy

  datatype Levels = Levels(atoms: seq<int>, territories: seq<nat>, themes: seq<nat>, realms: seq<nat>, liminal: seq<bool>)

  const LIMINAL_GAP: nat := 1000

  /** `max(0, territory_labels.max())`. */
  function MaxLabel(s: seq<nat>): nat {
    if s == [] then 0 else var m := MaxLabel(s[1..]); if s[0] > m then s[0] else m
  }

  /** The first liminal label. */
  function Offset(t: seq<nat>): nat { MaxLabel(t) + LIMINAL_GAP }

  predicate HasNoise(noise: seq<bool>, realms: seq<nat>, r: nat) {
    exists p :: 0 <= p < |noise| && p < |realms| && noise[p] && realms[p] == r
  }

  /** How many realms below `r` have a noise point. */
  function NoisyBelow(noise: seq<bool>, realms: seq<nat>, r: nat): nat {
    if r == 0 then 0 else NoisyBelow(noise, realms, r - 1) + if HasNoise(noise, realms, r - 1) then 1 else 0
  }

  /** Every noise point moves to the liminal territory of its realm; the others stay. */
  function Relabelled(t: seq<nat>, noise: seq<bool>, realms: seq<nat>): seq<nat>
    requires |t| == |noise| == |realms|
  {
    seq(|t|, p requires 0 <= p < |t| => if noise[p] then Offset(t) + NoisyBelow(noise, realms, realms[p]) else t[p])
  }

  lemma {:induction false} MaxLabelBounds(s: seq<nat>)
    ensures forall x :: x in s ==> x <= MaxLabel(s)
  {
    if s != [] {
      MaxLabelBounds(s[1..]);
      assert s == [s[0]] + s[1..];
    }
  }

  lemma {:induction false} NoisyBelowSkips(noise: seq<bool>, realms: seq<nat>, a: nat, b: nat)
    requires a <= b && forall r :: a <= r < b ==> r !in realms
    ensures NoisyBelow(noise, realms, a) == NoisyBelow(noise, realms, b)
    decreases b
  {
    if a < b {
      NoisyBelowSkips(noise, realms, a, b - 1);
      assert b - 1 !in realms;
      assert forall p :: 0 <= p < |realms| ==> realms[p] in realms;
    }
  }

  lemma {:induction false} NoisyBelowGrows(noise: seq<bool>, realms: seq<nat>, a: nat, b: nat)
    requires a < b && HasNoise(noise, realms, a)
    ensures NoisyBelow(noise, realms, a) < NoisyBelow(noise, realms, b)
    decreases b
  {
    if a < b - 1 { NoisyBelowGrows(noise, realms, a, b - 1); }
  }

  lemma NoRealmBelow(noise: seq<bool>, realms: seq<nat>)
    ensures NoisyBelow(noise, realms, 0) == 0
  {
  }

  lemma OneMoreRealm(noise: seq<bool>, realms: seq<nat>, r: nat)
    ensures NoisyBelow(noise, realms, r + 1) == NoisyBelow(noise, realms, r) + if HasNoise(noise, realms, r) then 1 else 0
  {
  }

  /** The relabelling loop, in place on the territory labels. */
  method RelabelNoise(territories: array<nat>, noise: seq<bool>, realms: seq<nat>)
    requires territories.Length == |noise| == |realms|
    modifies territories
    ensures territories[..] == Relabelled(old(territories[..]), noise, realms)
  {
    hide NoisyBelow, UniqueLabels, MaxLabel;
    var liminalOffset := MaxLabel(territories[..]) + LIMINAL_GAP;
    var liminalCount := 0;
    var ids := UniqueLabels(realms);
    UniqueLabelsSorted(realms);
    ghost var was := territories[..];
    ghost var next := 0;
    NoRealmBelow(noise, realms);
    forall a | 0 <= a < |ids| ensures ids[a] in realms && 0 <= ids[a] { assert ids[a] in ids; }
    for i := 0 to |ids|
      invariant 0 <= next && (forall a :: 0 <= a < i ==> ids[a] < next) && (forall a :: i <= a < |ids| ==> next <= ids[a])
      invariant liminalCount == NoisyBelow(noise, realms, next)
      invariant forall p :: 0 <= p < |noise| ==>
        territories[p] == if noise[p] && realms[p] < next then Offset(was) + NoisyBelow(noise, realms, realms[p]) else was[p]
    {
      var r := ids[i];
      forall q: int | next <= q < r ensures q !in realms { assert q !in ids; }
      NoisyBelowSkips(noise, realms, next, r);
      OneMoreRealm(noise, realms, r);
      forall p | 0 <= p < |noise| && realms[p] <= r ensures realms[p] < next || realms[p] == r { assert realms[p] in realms; }
      if HasNoise(noise, realms, r) {
        forall p | 0 <= p < |noise| && noise[p] && realms[p] == r { territories[p] := liminalOffset + liminalCount; }
        liminalCount := liminalCount + 1;
      }
      next := r + 1;
    }
    forall p | 0 <= p < |noise| ensures realms[p] < next { assert realms[p] in ids; }
    assert territories[..] == Relabelled(was, noise, realms);
  }

  /** Stages 3 to 6; `detectNoise` stands for the noise rules of stage 6. */
  method RunClustering(atoms: seq<int>, embeddings: seq<Vec>, dim: nat, norm: Vec -> real,
                       nTerritories: nat, nThemes: nat, nRealms: nat, detectNoise: seq<nat> -> seq<bool>)
      returns (h: Levels, ghost before: seq<nat>)
    requires Embedded(atoms, embeddings, dim) && nTerritories >= 1 && nThemes >= 1 && nRealms >= 1
    requires forall t :: |detectNoise(t)| == |t|
    ensures h.atoms == atoms && h.liminal == detectNoise(before)
    ensures IsParentLevel(before, atoms, embeddings, dim, norm, nTerritories)
    ensures IsParentLevel(h.themes, before, embeddings, dim, norm, nThemes)
    ensures IsParentLevel(h.realms, h.themes, embeddings, dim, norm, nRealms)
    ensures h.territories == Relabelled(before, h.liminal, h.realms)
  {
    var labels := CentroidsToGroups(atoms, embeddings, dim, norm, nTerritories);
    before := labels;
    var themes := CentroidsToGroups(labels, embeddings, dim, norm, nThemes);
    var realms: seq<nat> := seq(|labels|, _ => 0);
    if |UniqueLabels(themes)| > 1 {
      realms := CentroidsToGroups(themes, embeddings, dim, norm, nRealms);
    }
    var noise := detectNoise(labels);
    var territories := new nat[|labels|](p requires 0 <= p < |labels| => labels[p]);
    assert territories[..] == labels;
    RelabelNoise(territories, noise, realms);
    h := Levels(atoms, territories[..], themes, realms, noise);
  }

  /** Before noise handling, atom determines territory, territory theme, and theme realm. */
  lemma LevelsNest(atoms: seq<int>, before: seq<nat>, themes: seq<nat>, realms: seq<nat>, embeddings: seq<Vec>, dim: nat, norm: Vec -> real,
                   nTerritories: nat, nThemes: nat, nRealms: nat)
    requires Embedded(atoms, embeddings, dim) && nTerritories >= 1 && nThemes >= 1 && nRealms >= 1
    requires IsParentLevel(before, atoms, embeddings, dim, norm, nTerritories)
    requires IsParentLevel(themes, before, embeddings, dim, norm, nThemes)
    requires IsParentLevel(realms, themes, embeddings, dim, norm, nRealms)
    ensures Determines(atoms, before) && Determines(before, themes) && Determines(themes, realms)
    ensures Determines(atoms, themes) && Determines(atoms, realms) && Determines(before, realms)
  {
    hide IsParentLevel;
    ChildDeterminesParent(before, atoms, embeddings, dim, norm, nTerritories);
    ChildDeterminesParent(themes, before, embeddings, dim, norm, nThemes);
    ChildDeterminesParent(realms, themes, embeddings, dim, norm, nRealms);
  }

  /** After relabelling, a point is liminal exactly when its label reaches the offset; two points
    * share a territory exactly when they are non-noise of one old territory or noise of one realm. */
  lemma RelabelledTerritories(t: seq<nat>, noise: seq<bool>, realms: seq<nat>, p: nat, q: nat)
    requires |t| == |noise| == |realms| && p < |t| && q < |t|
    ensures noise[p] <==> Relabelled(t, noise, realms)[p] >= Offset(t)
    ensures Relabelled(t, noise, realms)[p] == Relabelled(t, noise, realms)[q] <==>
      noise[p] == noise[q] && if noise[p] then realms[p] == realms[q] else t[p] == t[q]
  {
    MaxLabelBounds(t);
    assert t[p] in t && t[q] in t;
    if noise[p] && noise[q] {
      assert HasNoise(noise, realms, realms[p]) && HasNoise(noise, realms, realms[q]);
      if realms[p] < realms[q] { NoisyBelowGrows(noise, realms, realms[p], realms[q]); }
      if realms[q] < realms[p] { NoisyBelowGrows(noise, realms, realms[q], realms[p]); }
    }
  }

  /** The realms below `r` that have a noise point. */
  function NoisyRealms(noise: seq<bool>, realms: seq<nat>, r: nat): set<nat> {
    set p | 0 <= p < |noise| && p < |realms| && noise[p] && realms[p] < r :: realms[p]
  }

  lemma {:induction false} NoisyBelowCounts(noise: seq<bool>, realms: seq<nat>, r: nat)
    ensures NoisyBelow(noise, realms, r) == |NoisyRealms(noise, realms, r)|
  {
    if r == 0 {
      assert NoisyRealms(noise, realms, 0) == {};
    } else {
      NoisyBelowCounts(noise, realms, r - 1);
      assert NoisyRealms(noise, realms, r) == NoisyRealms(noise, realms, r - 1) + if HasNoise(noise, realms, r - 1) then {r - 1} else {};
    }
  }

  lemma {:induction false} MaxLabelIsGreatest(s: seq<nat>, m: nat)
    requires m in s && forall x :: x in s ==> x <= m
    ensures MaxLabel(s) == m
  {
    MaxLabelBounds(s);
    MaxLabelIsIn(s);
  }

  lemma {:induction false} MaxLabelIsIn(s: seq<nat>)
    requires s != []
    ensures MaxLabel(s) in s
  {
    if |s| > 1 {
      MaxLabelIsIn(s[1..]);
      assert s == [s[0]] + s[1..];
    }
  }

  /** Noise of the realms, from the lowest one up, gets the labels 1000 above the greatest label there
    * was, 1001 above it and so on; the other points keep theirs. */
  lemma {:induction false} LiminalLabelIs(t: seq<nat>, noise: seq<bool>, realms: seq<nat>, m: nat, p: nat)
    requires |t| == |noise| == |realms| && p < |t| && m in t && forall x :: x in t ==> x <= m
    ensures Relabelled(t, noise, realms)[p] == if noise[p] then m + 1000 + |NoisyRealms(noise, realms, realms[p])| else t[p]
  {
    MaxLabelIsGreatest(t, m);
    NoisyBelowCounts(noise, realms, realms[p]);
  }

  /** A territory, liminal or not, still lies in exactly one realm. */
  lemma RealmNestingSurvives(t: seq<nat>, noise: seq<bool>, realms: seq<nat>)
    requires |t| == |noise| == |realms| && Determines(t, realms)
    ensures Determines(Relabelled(t, noise, realms), realms)
    ensures Determines(Relabelled(t, noise, realms), noise)
  {
    var r := Relabelled(t, noise, realms);
    forall p, q | 0 <= p < |r| && 0 <= q < |r| && r[p] == r[q] ensures realms[p] == realms[q] && noise[p] == noise[q] {
      RelabelledTerritories(t, noise, realms, p, q);
    }
  }

  /** Theme nesting survives exactly when the noise of each realm is confined to one theme. */
  lemma ThemeNestingSurvivesIff(t: seq<nat>, noise: seq<bool>, themes: seq<nat>, realms: seq<nat>)
    requires |t| == |noise| == |themes| == |realms| && Determines(t, themes)
    ensures Determines(Relabelled(t, noise, realms), themes) <==>
      forall p, q :: 0 <= p < |t| && 0 <= q < |t| && noise[p] && noise[q] && realms[p] == realms[q] ==> themes[p] == themes[q]
  {
    var r := Relabelled(t, noise, realms);
    forall p, q | 0 <= p < |r| && 0 <= q < |r|
      ensures r[p] == r[q] <==> noise[p] == noise[q] && if noise[p] then realms[p] == realms[q] else t[p] == t[q]
    {
      RelabelledTerritories(t, noise, realms, p, q);
    }
  }

  // ----- relabelling by the stabilised maps -----

  /** Replacing each label by its image, as the run does with the stabilised maps. */
  function Mapped(s: seq<nat>, m: map<int, int>): seq<int> {
    seq(|s|, p requires 0 <= p < |s| => if s[p] in m then m[s[p]] else s[p])
  }

  ghost predicate InjectiveOn(s: seq<nat>, m: map<int, int>) {
    (forall x :: x in s ==> x in m) && forall x, y :: x in s && y in s && m[x] == m[y] ==> x == y
  }

  /** Total injective maps keep the territories, their realms and their liminality apart and together. */
  lemma {:induction false} StabilisedNestingSurvives(territories: seq<nat>, realms: seq<nat>, noise: seq<bool>, terrMap: map<int, int>, realmMap: map<int, int>)
    requires |territories| == |realms| == |noise| && InjectiveOn(territories, terrMap)
    requires Determines(territories, realms) && Determines(territories, noise)
    ensures Determines(Mapped(territories, terrMap), Mapped(realms, realmMap)) && Determines(Mapped(territories, terrMap), noise)
    ensures Determines(territories, Mapped(territories, terrMap)) && Determines(Mapped(territories, terrMap), territories)
  {
    var m := Mapped(territories, terrMap);
    forall p, q | 0 <= p < |m| && 0 <= q < |m| && m[p] == m[q] ensures territories[p] == territories[q] {
      assert territories[p] in territories && territories[q] in territories;
    }
  }
}
