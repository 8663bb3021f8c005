/** `centroids_to_groups` and stages 3 to 6 of `run_clustering`: the four nested levels and the
  * relabelling of noise points into liminal territories. */
module Hierarchy {
  import opened SortedLabels
  import opened Vectors
  import opened WardGroups
  import opened WardState
  import opened WardTheory
  import opened WardAgglomeration

  /** Points that agree in `child` agree in `parent`. */
  ghost predicate Determines<A, B>(child: seq<A>, parent: seq<B>) {
    |child| == |parent| &&
    forall p, q :: 0 <= p < |child| && 0 <= q < |child| && child[p] == child[q] ==> parent[p] == parent[q]
  }

  /** Position of `c` in `s`, or 0 when it is absent: `child_to_group.get(c, 0)` over positions. */
  function IndexOr0(c: int, s: seq<int>): nat { if c in s then IndexOf(c, s) else 0 }

  function IndexOf(c: int, s: seq<int>): (i: nat)
    requires c in s
    ensures i < |s| && s[i] == c
  {
    if s[0] == c then 0 else IndexOf(c, s[1..]) + 1
  }

  // ----- centroid and mass of each child -----

  /** The embeddings of the points labelled `c`: `embeddings[child_labels == c]`. */
  function Select(labels: seq<int>, embeddings: seq<Vec>, c: int): (r: seq<Vec>)
    requires |labels| == |embeddings|
    ensures c in labels ==> |r| > 0
    ensures forall v :: v in r ==> v in embeddings
  {
    if labels == [] then [] else
      (if labels[0] == c then [embeddings[0]] else []) + Select(labels[1..], embeddings[1..], c)
  }

  function SumAt(points: seq<Vec>, t: nat): real
    requires forall v :: v in points ==> t < |v|
  {
    if points == [] then 0.0 else points[0][t] + SumAt(points[1..], t)
  }

  function Mean(points: seq<Vec>, dim: nat): (m: Vec)
    requires |points| > 0 && forall v :: v in points ==> |v| == dim
    ensures |m| == dim
  {
    seq(dim, t requires 0 <= t < dim => SumAt(points, t) / (|points| as real))
  }

  /** `norms[norms == 0] = 1; centroids / norms`. */
  function Normalize(v: Vec, norm: Vec -> real): (u: Vec)
    ensures |u| == |v|
  {
    var n := if norm(v) == 0.0 then 1.0 else norm(v);
    seq(|v|, t requires 0 <= t < |v| => v[t] / n)
  }

  ghost predicate Embedded(labels: seq<int>, embeddings: seq<Vec>, dim: nat) {
    |labels| == |embeddings| && forall v :: v in embeddings ==> |v| == dim
  }

  function Centroid(labels: seq<int>, embeddings: seq<Vec>, dim: nat, norm: Vec -> real, c: int): (u: Vec)
    requires |labels| == |embeddings| && c in labels && forall v :: v in embeddings ==> |v| == dim
    ensures |u| == dim
  {
    Normalize(Mean(Select(labels, embeddings, c), dim), norm)
  }

  function Centroids(labels: seq<int>, embeddings: seq<Vec>, dim: nat, norm: Vec -> real, children: seq<int>): (xs: seq<Vec>)
    requires |labels| == |embeddings| && (forall c :: c in children ==> c in labels) && forall v :: v in embeddings ==> |v| == dim
    ensures |xs| == |children|
  {
    seq(|children|, i requires 0 <= i < |children| => Centroid(labels, embeddings, dim, norm, children[i]))
  }

  function Masses(labels: seq<int>, embeddings: seq<Vec>, children: seq<int>): (ms: seq<real>)
    requires |labels| == |embeddings|
    ensures |ms| == |children|
  {
    seq(|children|, i requires 0 <= i < |children| => |Select(labels, embeddings, children[i])| as real)
  }

  lemma ChildInputs(labels: seq<int>, embeddings: seq<Vec>, dim: nat, norm: Vec -> real)
    requires Embedded(labels, embeddings, dim)
    ensures var children := UniqueLabels(labels);
      && (forall c :: c in children ==> c in labels)
      && Inputs(Centroids(labels, embeddings, dim, norm, children), Masses(labels, embeddings, children), dim)
  {
    UniqueLabelsSorted(labels);
  }

  /** The Ward run `centroids_to_groups` makes over the children of `labels`. */
  ghost function ChildGroups(labels: seq<int>, embeddings: seq<Vec>, dim: nat, norm: Vec -> real, nGroups: nat): Groups
    requires Embedded(labels, embeddings, dim) && nGroups >= 1
  {
    ChildInputs(labels, embeddings, dim, norm);
    var children := UniqueLabels(labels);
    Run(Init(Centroids(labels, embeddings, dim, norm, children), Masses(labels, embeddings, children), dim), nGroups).groups
  }

  /** What `centroids_to_groups` returns, branch by branch. */
  ghost predicate IsParentLevel(parents: seq<nat>, labels: seq<int>, embeddings: seq<Vec>, dim: nat, norm: Vec -> real, nGroups: nat)
    requires Embedded(labels, embeddings, dim) && nGroups >= 1
  {
    var children := UniqueLabels(labels);
    && |parents| == |labels|
    && (|children| <= 1 ==> forall p :: 0 <= p < |labels| ==> parents[p] == 0)
    && (1 < |children| <= nGroups ==> forall p :: 0 <= p < |labels| ==> parents[p] == IndexOr0(labels[p], children))
    && (|children| > nGroups && |children| > 1 ==>
          exists out: seq<nat> :: |out| == |children| && IsLabelling(out, ChildGroups(labels, embeddings, dim, norm, nGroups))
            && forall p :: 0 <= p < |labels| ==> parents[p] == if labels[p] in children then out[IndexOf(labels[p], children)] else 0)
  }

  method CentroidsToGroups(labels: seq<int>, embeddings: seq<Vec>, dim: nat, norm: Vec -> real, nGroups: nat) returns (parents: seq<nat>)
    requires Embedded(labels, embeddings, dim) && nGroups >= 1
    ensures IsParentLevel(parents, labels, embeddings, dim, norm, nGroups)
  {
    hide UniqueLabels, Centroids, Masses, Inputs, Run, Init;
    var children := UniqueLabels(labels);
    ChildInputs(labels, embeddings, dim, norm);
    if |children| <= 1 { return seq(|labels|, _ => 0); }
    if |children| <= nGroups { return seq(|labels|, p requires 0 <= p < |labels| => IndexOr0(labels[p], children)); }
    var centroids, masses := Centroids(labels, embeddings, dim, norm, children), Masses(labels, embeddings, children);
    var groupOfChild := WeightedWardGroups(centroids, masses, dim, if nGroups < |children| then nGroups else |children|);
    parents := seq(|labels|, p requires 0 <= p < |labels| => if labels[p] in children then groupOfChild[IndexOf(labels[p], children)] else 0);
  }

  /** A child lies in exactly one parent, whichever branch was taken. */
  lemma ChildDeterminesParent(parents: seq<nat>, labels: seq<int>, embeddings: seq<Vec>, dim: nat, norm: Vec -> real, nGroups: nat)
    requires Embedded(labels, embeddings, dim) && nGroups >= 1
    requires IsParentLevel(parents, labels, embeddings, dim, norm, nGroups)
    ensures Determines(labels, parents)
  {
  }

  /** With every point labelled, the parents are exactly `0..` the number asked for, or the
    * number of children when that is smaller. */
  lemma ParentsAreExact(parents: seq<nat>, labels: seq<int>, embeddings: seq<Vec>, dim: nat, norm: Vec -> real, nGroups: nat, parent: nat)
    requires Embedded(labels, embeddings, dim) && nGroups >= 1 && labels != [] && -1 !in labels
    requires IsParentLevel(parents, labels, embeddings, dim, norm, nGroups)
    ensures var n := |UniqueLabels(labels)|; parent in parents <==> parent < if n <= nGroups then n else nGroups
  {
    var children := UniqueLabels(labels);
    UniqueLabelsSorted(labels);
    ChildInputs(labels, embeddings, dim, norm);
    assert labels[0] in children;
    if |children| <= 1 {
      assert parents[0] == 0;
    } else if |children| <= nGroups {
      if parent < |children| {
        assert children[parent] in labels;
        var p :| 0 <= p < |labels| && labels[p] == children[parent];
        assert parents[p] == parent;
      }
    } else {
      WardParentsAreExact(parents, labels, embeddings, dim, norm, nGroups, parent);
    }
  }

  lemma WardParentsAreExact(parents: seq<nat>, labels: seq<int>, embeddings: seq<Vec>, dim: nat, norm: Vec -> real, nGroups: nat, parent: nat)
    requires Embedded(labels, embeddings, dim) && nGroups >= 1 && labels != [] && -1 !in labels
    requires IsParentLevel(parents, labels, embeddings, dim, norm, nGroups)
    requires |UniqueLabels(labels)| > nGroups && |UniqueLabels(labels)| > 1
    ensures parent in parents <==> parent < nGroups
  {
    hide Run, Init, IsLabelling, Centroids, Masses, Inputs;
    var children := UniqueLabels(labels);
    UniqueLabelsSorted(labels);
    ChildInputs(labels, embeddings, dim, norm);
    var groups := ChildGroups(labels, embeddings, dim, norm, nGroups);
    var out: seq<nat> :| |out| == |children| && IsLabelling(out, groups)
      && forall p :: 0 <= p < |labels| ==> parents[p] == if labels[p] in children then out[IndexOf(labels[p], children)] else 0;
    RunLabels(Centroids(labels, embeddings, dim, norm, children), Masses(labels, embeddings, children), dim, nGroups, out, nGroups, out);
    ThroughChildren(parents, labels, children, out, parent);
  }

  /** Passing every point through its child uses exactly the labels the children use. */
  lemma ThroughChildren(parents: seq<nat>, labels: seq<int>, children: seq<int>, out: seq<nat>, parent: nat)
    requires |parents| == |labels| && |out| == |children| && Ascending(children)
    requires forall c :: c in children <==> c in labels
    requires forall p :: 0 <= p < |labels| ==> parents[p] == if labels[p] in children then out[IndexOf(labels[p], children)] else 0
    ensures parent in parents <==> parent in out
  {
    if parent in parents {
      var p :| 0 <= p < |labels| && parents[p] == parent;
      assert labels[p] in labels;
      assert out[IndexOf(labels[p], children)] in out;
    }
    if parent in out {
      var i :| 0 <= i < |out| && out[i] == parent;
      assert children[i] in children;
      var p :| 0 <= p < |labels| && labels[p] == children[i];
      assert IndexOf(labels[p], children) == i;
      assert parents[p] == parent;
    }
  }
}
