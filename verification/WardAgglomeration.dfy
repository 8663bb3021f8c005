/** `_weighted_ward_groups`: the agglomeration over mutable arrays and an in-place distance table. */
module WardAgglomeration {
  import opened Vectors
  import opened WardGroups
  import opened WardState
  import opened WardTheory

  ghost function Model(dim: nat, cents: array<Vec>, w: array<real>, alive: array<bool>, groups: Groups): Ward
    reads cents, w, alive
  {
    Ward(dim, cents[..], w[..], alive[..], groups)
  }

  /** Every cell of the table equals a computation from scratch. */
  ghost predicate TableAgrees(st: Ward, D: array2<Cost>)
    requires Shape(st)
    reads D
  {
    && D.Length0 == D.Length1 == |st.cents|
    && forall p, q :: 0 <= p < D.Length0 && 0 <= q < D.Length1 ==> D[p, q] == Entry(st, p, q)
  }

  /** `ward_row(i)` for an alive slot `i`: row `i` of the table from scratch. */
  method WardRow(ghost st: Ward, cents: array<Vec>, w: array<real>, alive: array<bool>, i: nat) returns (row: array<Cost>)
    requires Shape(st) && st == Model(st.dim, cents, w, alive, st.groups)
    requires i < |st.cents| && alive[i]
    ensures fresh(row) && row.Length == |st.cents|
    ensures forall q :: 0 <= q < row.Length ==> row[q] == Entry(st, i, q)
  {
    hide SqDist;
    row := new Cost[cents.Length];
    forall q | 0 <= q < cents.Length {
      row[q] := if q == i || !alive[q] then Infinite else Finite(WardCost(w[q], cents[q], w[i], cents[i]));
    }
    forall q | 0 <= q < cents.Length ensures row[q] == Entry(st, i, q) { EntrySymmetric(st, i, q); }
  }

  /** `np.unravel_index(np.argmin(D), D.shape)`: the first least cell in row-major order. */
  method FirstLeast(ghost st: Ward, D: array2<Cost>) returns (i: nat, j: nat)
    requires Shape(st) && TableAgrees(st, D) && D.Length0 > 0
    ensures IsArgMin(st, i, j)
  {
    hide Entry;
    i, j := 0, 0;
    for r := 0 to D.Length0
      invariant IsArgMinBefore(st, i, j, r, 0)
    {
      for c := 0 to D.Length1
        invariant IsArgMinBefore(st, i, j, r, c)
      {
        if Less(D[r, c], D[i, j]) { i, j := r, c; }
      }
    }
  }

  /** The table on entry to the loop, row by row. */
  method FillTable(ghost st: Ward, cents: array<Vec>, w: array<real>, alive: array<bool>) returns (D: array2<Cost>)
    requires Shape(st) && st == Model(st.dim, cents, w, alive, st.groups)
    requires forall i :: 0 <= i < alive.Length ==> alive[i]
    ensures fresh(D) && TableAgrees(st, D)
  {
    hide Entry;
    var k := cents.Length;
    D := new Cost[k, k]((_, _) => Infinite);
    for i := 0 to k
      invariant forall p, q :: 0 <= p < i && 0 <= q < k ==> D[p, q] == Entry(st, p, q)
    {
      var row := WardRow(st, cents, w, alive, i);
      forall q | 0 <= q < k { D[i, q] := row[q]; }
    }
  }

  /** The slice assignments of one pass: wipe row and column `j`, write `row` into row and column `i`. */
  method RewriteRows(D: array2<Cost>, row: array<Cost>, i: nat, j: nat)
    requires D.Length0 == D.Length1 == row.Length && i < row.Length && j < row.Length
    modifies D
    ensures forall p, q :: 0 <= p < row.Length && 0 <= q < row.Length ==>
      D[p, q] == if q == i then row[p] else if p == i then row[q] else if p == j || q == j then Infinite else old(D[p, q])
  {
    forall q | 0 <= q < row.Length { D[j, q] := Infinite; }
    forall q | 0 <= q < row.Length { D[q, j] := Infinite; }
    forall q | 0 <= q < row.Length { D[i, q] := row[q]; }
    forall q | 0 <= q < row.Length { D[q, i] := row[q]; }
  }

  /** One pass of the loop body: merge slot `j` into slot `i`, in place. */
  method MergePair(ghost st: Ward, cents: array<Vec>, w: array<real>, alive: array<bool>, D: array2<Cost>, groups: Groups, i: nat, j: nat)
      returns (groups': Groups)
    requires Shape(st) && st == Model(st.dim, cents, w, alive, groups) && TableAgrees(st, D)
    requires i in groups && j in groups && i != j
    modifies cents, w, alive, D
    ensures Model(st.dim, cents, w, alive, groups') == Merge(st, i, j)
    ensures TableAgrees(Merge(st, i, j), D)
  {
    hide SqDist, Mix, Entry;
    var wi, wj := w[i], w[j];
    cents[i] := Mix(wi, cents[i], wj, cents[j]);
    w[i] := wi + wj;
    groups' := MergeGroups(groups, i, j);
    alive[j] := false;
    ghost var r := Merge(st, i, j);
    assert r == Model(st.dim, cents, w, alive, groups');
    var row := WardRow(r, cents, w, alive, i);
    RewriteRows(D, row, i, j);
    TableAfterMerge(st, i, j);
  }

  lemma TableAfterMerge(st: Ward, i: nat, j: nat)
    requires Shape(st) && i in st.groups && j in st.groups && i != j
    ensures var r, k := Merge(st, i, j), |st.cents|;
      forall p: nat, q: nat :: p < k && q < k ==>
        Entry(r, p, q) == if q == i then Entry(r, i, p) else if p == i then Entry(r, i, q)
                          else if p == j || q == j then Infinite else Entry(st, p, q)
  {
    hide WardCost, Mix;
    var r, k := Merge(st, i, j), |st.cents|;
    forall p: nat | p < k ensures Entry(r, p, i) == Entry(r, i, p) { EntrySymmetric(r, p, i); }
  }

  /** How many groups are kept under a slot below `i`: the label of the group kept under `i`. */
  function KeyRank(g: Groups, i: nat): nat {
    if i == 0 then 0 else KeyRank(g, i - 1) + if i - 1 in g then 1 else 0
  }

  /** Each point is labelled with the rank of its group's slot. */
  ghost predicate IsLabelling(out: seq<nat>, g: Groups) {
    forall i: nat, p: nat :: Holds(g, i, p) ==> p < |out| && out[p] == KeyRank(g, i)
  }

  /** Writing the labels out, group after group in slot order. */
  method WriteLabels(groups: Groups, k: nat) returns (labels: seq<nat>)
    requires Partition(groups, k)
    ensures |labels| == k && IsLabelling(labels, groups)
  {
    var out := new nat[k](_ => 0);
    var gid := 0;
    for i := 0 to k
      invariant gid == KeyRank(groups, i)
      invariant forall a: nat, p: nat :: a < i && Holds(groups, a, p) ==> p < k && out[p] == KeyRank(groups, a)
    {
      if i in groups {
        var g := groups[i];
        for m := 0 to |g|
          invariant forall a: nat, p: nat :: a < i && Holds(groups, a, p) ==> p < k && out[p] == KeyRank(groups, a)
          invariant forall b :: 0 <= b < m ==> g[b] < k && out[g[b]] == gid
        {
          assert Holds(groups, i, g[m]);
          out[g[m]] := gid;
        }
        assert forall p: nat :: Holds(groups, i, p) ==> p in g;
        gid := gid + 1;
      }
    }
    labels := out[..];
    assert forall a: nat, p: nat :: Holds(groups, a, p) ==> a < k;
  }

  /** The source's function: labels of the groups a run to `nGroups` clusters ends with. */
  method WeightedWardGroups(xs: seq<Vec>, ms: seq<real>, dim: nat, nGroups: nat) returns (labels: seq<nat>)
    requires Inputs(xs, ms, dim) && nGroups >= 1
    ensures |labels| == |xs| && IsLabelling(labels, Run(Init(xs, ms, dim), nGroups).groups)
  {
    hide SqDist, Mix, Entry, Partition, IsArgMin, IsLabelling;
    var k := |xs|;
    var cents, w, alive := new Vec[k](i requires 0 <= i < k => xs[i]), new real[k](i requires 0 <= i < k => ms[i]), new bool[k](_ => true);
    var groups := Singletons(k);
    ghost var st := Init(xs, ms, dim);
    assert st == Model(dim, cents, w, alive, groups);
    SingletonsPartition(k);
    var D := FillTable(st, cents, w, alive);
    var nAlive := k;
    SingletonsSize(k);
    while nAlive > nGroups
      invariant Shape(st) && st == Model(dim, cents, w, alive, groups) && TableAgrees(st, D) && |st.cents| == k
      invariant nAlive == |groups| && Partition(groups, k)
      invariant Run(st, nGroups) == Run(Init(xs, ms, dim), nGroups)
    {
      SomeCentroid(st);
      var i, j := FirstLeast(st, D);
      ghost var c := ArgMin(st);
      ArgMinUnique(st, i, j, c.0, c.1);
      MergePartition(groups, i, j, k);
      groups := MergePair(st, cents, w, alive, D, groups, i, j);
      st := Next(st);
      nAlive := nAlive - 1;
    }
    labels := WriteLabels(groups, k);
  }

  lemma {:induction false} SingletonsSize(k: nat)
    ensures |Singletons(k)| == k
  {
    if k == 0 {
      assert Singletons(0) == map[];
    } else {
      SingletonsSize(k - 1);
      assert Singletons(k) == Singletons(k - 1)[k - 1 := [k - 1]];
    }
  }

  // ----- what the labels say -----

  lemma {:induction false} KeyRankGrows(g: Groups, i: nat, j: nat)
    requires i <= j
    ensures KeyRank(g, i) <= KeyRank(g, j)
    ensures i < j && i in g ==> KeyRank(g, i) < KeyRank(g, j)
    decreases j
  {
    if i < j { KeyRankGrows(g, i, j - 1); }
  }

  lemma {:induction false} KeyRankHits(g: Groups, k: nat, tag: nat) returns (i: nat)
    requires tag < KeyRank(g, k)
    ensures i in g && i < k && KeyRank(g, i) == tag
  {
    if tag < KeyRank(g, k - 1) { i := KeyRankHits(g, k - 1, tag); } else { i := k - 1; }
  }

  ghost function KeysBelow(g: Groups, k: nat): set<nat> { set i | i in g && i < k }

  lemma {:induction false} KeyRankCounts(g: Groups, k: nat)
    ensures KeyRank(g, k) == |KeysBelow(g, k)|
  {
    if k == 0 {
      assert KeysBelow(g, 0) == {};
    } else {
      KeyRankCounts(g, k - 1);
      assert KeysBelow(g, k) == if k - 1 in g then KeysBelow(g, k - 1) + {k - 1} else KeysBelow(g, k - 1);
    }
  }

  lemma KeyRankIsSize(g: Groups, k: nat)
    requires forall i :: i in g ==> i < k
    ensures KeyRank(g, k) == |g|
  {
    KeyRankCounts(g, k);
    assert KeysBelow(g, k) == g.Keys;
  }

  /** Two points share a label exactly when they share a group. */
  lemma SameLabelIffTogether(out: seq<nat>, g: Groups, k: nat, p: nat, q: nat)
    requires Partition(g, k) && |out| == k && IsLabelling(out, g) && p < k && q < k
    ensures out[p] == out[q] <==> Together(g, p, q)
  {
    assert Owned(g, p) && Owned(g, q);
    var a: nat :| Holds(g, a, p);
    var b: nat :| Holds(g, b, q);
    if a < b { KeyRankGrows(g, a, b); } else if b < a { KeyRankGrows(g, b, a); } else { assert Holds(g, a, q); }
  }

  /** Groups are numbered in the order of their least members. */
  lemma LabelsFollowLeastMembers(out: seq<nat>, g: Groups, k: nat, i: nat, j: nat)
    requires Partition(g, k) && |out| == k && IsLabelling(out, g) && i in g && j in g
    ensures i < k && j < k && (out[i] < out[j] <==> i < j)
    ensures forall p: nat :: Holds(g, i, p) ==> i <= p < k && out[p] == out[i]
  {
    assert Holds(g, i, i) && Holds(g, j, j);
    if i < j { KeyRankGrows(g, i, j); } else if j < i { KeyRankGrows(g, j, i); }
  }

  /** The labels are exactly `0..` the number of groups. */
  lemma LabelsAreExact(out: seq<nat>, g: Groups, k: nat, tag: nat)
    requires Partition(g, k) && |out| == k && IsLabelling(out, g)
    ensures tag in out <==> tag < |g|
  {
    forall i | i in g ensures i < k { assert Holds(g, i, i); }
    KeyRankIsSize(g, k);
    if tag < |g| {
      var i := KeyRankHits(g, k, tag);
      assert Holds(g, i, i) && out[i] == tag;
    }
    if tag in out {
      var p :| 0 <= p < k && out[p] == tag;
      assert Owned(g, p);
      var a: nat :| Holds(g, a, p);
      KeyRankGrows(g, a, k);
    }
  }

  /** The labels of a whole run: exactly as many as asked for (or as there are points), and
    * points sharing a label at `n'` groups share one at any smaller `n`. */
  lemma RunLabels(xs: seq<Vec>, ms: seq<real>, dim: nat, n: nat, out: seq<nat>, n': nat, out': seq<nat>)
    requires Inputs(xs, ms, dim) && 1 <= n <= n' && |out| == |out'| == |xs|
    requires IsLabelling(out, Run(Init(xs, ms, dim), n).groups)
    requires IsLabelling(out', Run(Init(xs, ms, dim), n').groups)
    ensures forall tag: nat :: tag in out <==> tag < if |xs| <= n then |xs| else n
    ensures forall p, q :: 0 <= p < |xs| && 0 <= q < |xs| && out'[p] == out'[q] ==> out[p] == out[q]
  {
    hide Run, Partition, IsLabelling, Coarser, Together;
    var k, st := |xs|, Init(xs, ms, dim);
    var g, g' := Run(st, n).groups, Run(st, n').groups;
    SingletonsPartition(k);
    SingletonsSize(k);
    RunIsPartition(st, n);
    RunIsPartition(st, n');
    FewerGroupsCoarsen(xs, ms, dim, n, n');
    forall tag: nat ensures tag in out <==> tag < |g| { LabelsAreExact(out, g, k, tag); }
    forall p, q | 0 <= p < k && 0 <= q < k && out'[p] == out'[q] ensures out[p] == out[q] {
      SameLabelIffTogether(out', g', k, p, q);
      TogetherStays(g, g', p, q);
      SameLabelIffTogether(out, g, k, p, q);
    }
  }

  lemma TogetherStays(r: Groups, g: Groups, p: nat, q: nat)
    requires Coarser(r, g) && Together(g, p, q)
    ensures Together(r, p, q)
  {
  }
}
