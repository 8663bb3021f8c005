/** The `groups` dictionary: a partition of the input indices that merges only coarsen. */
module WardGroups {

  type Groups = map<nat, seq<nat>>

  /** Point `p` is a member of the group kept under slot `i`. */
  ghost predicate Holds(g: Groups, i: nat, p: nat) { i in g && p in g[i] }

  ghost predicate Owned(g: Groups, p: nat) { exists i: nat :: Holds(g, i, p) }

  ghost predicate NoRepeats(s: seq<nat>) { forall a, b :: 0 <= a < b < |s| ==> s[a] != s[b] }

  /** The groups partition `0..k`, without repeats, and each slot is the least member of its group. */
  ghost predicate Partition(g: Groups, k: nat) {
    && (forall p: nat :: p < k ==> Owned(g, p))
    && (forall i :: i in g ==> Holds(g, i, i))
    && (forall i: nat, p: nat :: Holds(g, i, p) ==> i <= p < k)
    && (forall i: nat, j: nat, p: nat :: Holds(g, i, p) && Holds(g, j, p) ==> i == j)
    && (forall i :: i in g ==> NoRepeats(g[i]))
  }

  /** `groups[i].extend(groups.pop(j))`. */
  function MergeGroups(g: Groups, i: nat, j: nat): Groups
    requires i in g && j in g && i != j
  {
    g[i := g[i] + g[j]] - {j}
  }

  function Singletons(k: nat): Groups { map i | 0 <= i < k :: [i] }

  lemma SingletonsPartition(k: nat)
    ensures Partition(Singletons(k), k)
  {
    forall p: nat | p < k ensures Owned(Singletons(k), p) { assert Holds(Singletons(k), p, p); }
  }

  lemma MergedHolds(g: Groups, i: nat, j: nat, a: nat, p: nat)
    requires i in g && j in g && i != j
    ensures Holds(MergeGroups(g, i, j), a, p) <==> a != j && (Holds(g, a, p) || (a == i && Holds(g, j, p)))
  {
  }

  lemma MergePartition(g: Groups, i: nat, j: nat, k: nat)
    requires Partition(g, k) && i in g && j in g && i < j
    ensures Partition(MergeGroups(g, i, j), k)
    ensures Coarser(MergeGroups(g, i, j), g)
  {
    var r := MergeGroups(g, i, j);
    forall a: nat, p: nat ensures Holds(r, a, p) <==> a != j && (Holds(g, a, p) || (a == i && Holds(g, j, p))) { MergedHolds(g, i, j, a, p); }
    forall p: nat | p < k ensures Owned(r, p) {
      assert Owned(g, p);
      var b: nat :| Holds(g, b, p);
      assert Holds(r, if b == j then i else b, p);
    }
    forall b: nat, p: nat, q: nat | Holds(g, b, p) && Holds(g, b, q) ensures Together(r, p, q) {
      var a := if b == j then i else b;
      assert Holds(r, a, p) && Holds(r, a, q);
    }
    assert NoRepeats(r[i]) by {
      forall x: nat | x in g[i] && x in g[j] ensures false { assert Holds(g, i, x) && Holds(g, j, x); }
      ConcatNoRepeats(g[i], g[j]);
    }
  }

  lemma ConcatNoRepeats(s: seq<nat>, t: seq<nat>)
    requires NoRepeats(s) && NoRepeats(t) && forall x :: x in s ==> x !in t
    ensures NoRepeats(s + t)
  {
    forall a, b | 0 <= a < b < |s + t| ensures (s + t)[a] != (s + t)[b] {
      if a < |s| <= b { assert s[a] in s && t[b - |s|] in t; }
    }
  }

  /** Points together in `g` are together in `r`. */
  ghost predicate Coarser(r: Groups, g: Groups) {
    forall b: nat, p: nat, q: nat :: Holds(g, b, p) && Holds(g, b, q) ==> Together(r, p, q)
  }

  ghost predicate Together(g: Groups, p: nat, q: nat) { exists a: nat :: Holds(g, a, p) && Holds(g, a, q) }

  lemma CoarserIsReflexive(g: Groups)
    ensures Coarser(g, g)
  {
  }

  lemma CoarserIsTransitive(r: Groups, s: Groups, g: Groups)
    requires Coarser(r, s) && Coarser(s, g)
    ensures Coarser(r, g)
  {
  }
}
