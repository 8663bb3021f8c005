/** The state `_weighted_ward_groups` works on, one merge of it, and a whole run. */
module WardState {
  import opened Vectors
  import opened WardGroups

  /** An entry of the distance table. */
  datatype Cost = Finite(value: real) | Infinite

  predicate Less(a: Cost, b: Cost) { a.Finite? && (b.Infinite? || a.value < b.value) }

  /** `cents`, `w` and `alive` are the source's arrays; `groups` its dictionary. */
  datatype Ward = Ward(dim: nat, cents: seq<Vec>, w: seq<real>, alive: seq<bool>, groups: Groups)

  ghost predicate Shape(st: Ward) {
    && |st.w| == |st.alive| == |st.cents|
    && (forall i :: 0 <= i < |st.cents| ==> |st.cents[i]| == st.dim && st.w[i] > 0.0)
    && (forall i :: i in st.groups <==> 0 <= i < |st.cents| && st.alive[i])
  }

  /** The table from scratch: closed form for distinct alive slots, infinite elsewhere. */
  ghost function Entry(st: Ward, p: nat, q: nat): Cost
    requires Shape(st) && p < |st.cents| && q < |st.cents|
  {
    if p == q || !st.alive[p] || !st.alive[q] then Infinite
    else Finite(WardCost(st.w[p], st.cents[p], st.w[q], st.cents[q]))
  }

  lemma EntrySymmetric(st: Ward, p: nat, q: nat)
    requires Shape(st) && p < |st.cents| && q < |st.cents|
    ensures Entry(st, p, q) == Entry(st, q, p)
  {
    WardCostSymmetric(st.w[p], st.cents[p], st.w[q], st.cents[q]);
  }

  /** Row-major order of table cells. */
  predicate Before(p: nat, q: nat, i: nat, j: nat) { p < i || (p == i && q < j) }

  /** Cell `(i, j)` is the first least one in row-major order among the cells before `(r, c)`. */
  ghost predicate IsArgMinBefore(st: Ward, i: nat, j: nat, r: nat, c: nat)
    requires Shape(st)
  {
    var k := |st.cents|;
    && i < k && j < k
    && (forall p, q :: 0 <= p < k && 0 <= q < k && Before(p, q, r, c) ==> !Less(Entry(st, p, q), Entry(st, i, j)))
    && (forall p, q :: 0 <= p < k && 0 <= q < k && Before(p, q, i, j) ==> Less(Entry(st, i, j), Entry(st, p, q)))
  }

  /** What `np.unravel_index(np.argmin(D), D.shape)` gives. */
  ghost predicate IsArgMin(st: Ward, i: nat, j: nat)
    requires Shape(st)
  {
    IsArgMinBefore(st, i, j, |st.cents|, 0)
  }

  lemma ArgMinExists(st: Ward)
    requires Shape(st) && st.cents != []
    ensures exists i: nat, j: nat :: IsArgMin(st, i, j)
  {
    var i: nat, j: nat, k := 0, 0, |st.cents|;
    for r := 0 to k
      invariant IsArgMinBefore(st, i, j, r, 0)
    {
      for c := 0 to k
        invariant IsArgMinBefore(st, i, j, r, c)
      {
        if Less(Entry(st, r, c), Entry(st, i, j)) { i, j := r, c; }
      }
    }
    assert IsArgMin(st, i, j);
  }

  lemma ArgMinUnique(st: Ward, i: nat, j: nat, i': nat, j': nat)
    requires Shape(st) && IsArgMin(st, i, j) && IsArgMin(st, i', j')
    ensures i == i' && j == j'
  {
    assert Before(i, j, i', j') || Before(i', j', i, j) || (i == i' && j == j');
    assert Before(i, j, |st.cents|, 0) && Before(i', j', |st.cents|, 0);
  }

  /** With two clusters left the chosen cell is a finite one above the diagonal, and cheapest. */
  lemma ArgMinIsCheapestPair(st: Ward, i: nat, j: nat)
    requires Shape(st) && |st.groups| >= 2 && IsArgMin(st, i, j)
    ensures i < j && i in st.groups && j in st.groups
    ensures forall p, q :: p in st.groups && q in st.groups && p != q ==>
      WardCost(st.w[i], st.cents[i], st.w[j], st.cents[j]) <= WardCost(st.w[p], st.cents[p], st.w[q], st.cents[q])
  {
    var k := |st.cents|;
    var a, b := TwoKeys(st.groups);
    assert Entry(st, a, b).Finite?;
    assert Before(a, b, k, 0);
    assert Entry(st, i, j).Finite?;
    EntrySymmetric(st, i, j);
    assert !Before(j, i, i, j);
    forall p, q | p in st.groups && q in st.groups && p != q
      ensures WardCost(st.w[i], st.cents[i], st.w[j], st.cents[j]) <= WardCost(st.w[p], st.cents[p], st.w[q], st.cents[q])
    {
      assert Before(p, q, k, 0) && !Less(Entry(st, p, q), Entry(st, i, j));
    }
  }

  lemma TwoKeys<V>(m: map<nat, V>) returns (a: nat, b: nat)
    requires |m| >= 2
    ensures a in m && b in m && a != b
  {
    a :| a in m;
    assert |m.Keys - {a}| == |m| - 1;
    b :| b in m.Keys - {a};
  }

  ghost function ArgMin(st: Ward): (c: (nat, nat))
    requires Shape(st) && |st.groups| >= 2
    ensures IsArgMin(st, c.0, c.1) && c.0 < c.1 && c.0 in st.groups && c.1 in st.groups
  {
    SomeCentroid(st);
    ArgMinExists(st);
    var i: nat, j: nat :| IsArgMin(st, i, j);
    ArgMinIsCheapestPair(st, i, j);
    (i, j)
  }

  lemma SomeCentroid(st: Ward)
    requires Shape(st) && |st.groups| >= 2
    ensures st.cents != []
  {
  }

  /** One merge: slot `i` becomes the weighted mean of both, slot `j` dies. */
  ghost function Merge(st: Ward, i: nat, j: nat): (r: Ward)
    requires Shape(st) && i in st.groups && j in st.groups && i != j
    ensures Shape(r) && |r.cents| == |st.cents| && |r.groups| == |st.groups| - 1
  {
    var r := Ward(st.dim,
      st.cents[i := Mix(st.w[i], st.cents[i], st.w[j], st.cents[j])],
      st.w[i := st.w[i] + st.w[j]],
      st.alive[j := false],
      MergeGroups(st.groups, i, j));
    assert r.groups.Keys == st.groups.Keys - {j};
    r
  }

  ghost function Next(st: Ward): (r: Ward)
    requires Shape(st) && |st.groups| >= 2
    ensures Shape(r) && |r.cents| == |st.cents| && |r.groups| == |st.groups| - 1
  {
    var (i, j) := ArgMin(st);
    Merge(st, i, j)
  }

  /** What the next merge costs. */
  ghost function NextCost(st: Ward): real
    requires Shape(st) && |st.groups| >= 2
  {
    var (i, j) := ArgMin(st);
    WardCost(st.w[i], st.cents[i], st.w[j], st.cents[j])
  }

  /** Merging until `n` clusters are left. */
  ghost function Run(st: Ward, n: nat): (r: Ward)
    requires Shape(st) && n >= 1
    ensures Shape(r) && |r.cents| == |st.cents|
    decreases |st.groups|
  {
    if |st.groups| <= n then st else Run(Next(st), n)
  }

  /** The costs of the merges of a run, in order. */
  ghost function MergeCosts(st: Ward, n: nat): seq<real>
    requires Shape(st) && n >= 1
    decreases |st.groups|
  {
    if |st.groups| <= n then [] else [NextCost(st)] + MergeCosts(Next(st), n)
  }

  /** Every input point is a cluster of its own. */
  ghost function Init(xs: seq<Vec>, ms: seq<real>, dim: nat): (st: Ward)
    requires |xs| == |ms| && forall i :: 0 <= i < |xs| ==> |xs[i]| == dim && ms[i] > 0.0
    ensures Shape(st)
  {
    Ward(dim, xs, ms, seq(|xs|, _ => true), Singletons(|xs|))
  }
}
