/** A vault in which relabelling noise splits a liminal territory over two themes. */
module ThemeSplit {
  import opened SortedLabels
  import opened Vectors
  import opened WardGroups
  import opened WardState
  import opened WardTheory
  import opened WardAgglomeration
  import opened Hierarchy
  import opened ChildDirections
  import opened LiminalTerritories
  import opened NoiseRules
  import NoiseMeaning
  import opened Ratios
  import opened Clusters

  // ----- the targets and the cap the source sets -----

  /** Python's `round`. */
  function Round(x: real): int {
    var f := (x + 0.5).Floor;
    if f as real == x + 0.5 && f % 2 == 1 then f - 1 else f
  }

  function Clamp(lo: int, x: int, hi: int): int { if x < lo then lo else if x > hi then hi else x }

  datatype Targets = Targets(territories: int, themes: int, realms: int)

  /** `scale_targets` for a vault of `root * root` points. */
  function ScaleTargets(root: real): Targets {
    Targets(Clamp(2, Round(1.4 * root), 300), Clamp(2, Round(0.35 * root), 50), Clamp(3, Round(0.05 * root), 20))
  }

  // ----- the vault -----

  /** Two crowded directions and two lone ones, all of length 1; the lone ones are nearer to each
    * other than to any crowd. */
  function Directions(): seq<Vec> { [[1.0, 0.0, 0.0], [0.0, 1.0, 0.0], [0.6, 0.0, 0.8], [0.0, 0.6, 0.8]] }

  function Copies<T>(m: nat, x: T): seq<T> { seq(m, _ => x) }

  /** `m` points in each crowd and one in each of the other two directions, labelled by direction. */
  function Labels(m: nat): seq<nat> { Copies(m, 0) + Copies(m, 1) + [2, 3] }

  function Embeddings(m: nat): seq<Vec> {
    Copies(m, Directions()[0]) + Copies(m, Directions()[1]) + [Directions()[2], Directions()[3]]
  }

  /** The realm of each theme: the two lone ones share one. */
  function Realms(m: nat): seq<nat> { Copies(m, 0) + Copies(m, 1) + [2, 2] }

  /** The two lone points. */
  function Lone(m: nat): seq<bool> { Copies(2 * m, false) + [true, true] }

  /** The label of point `p`. */
  function LabelAt(m: nat, p: nat): nat { if p < m then 0 else if p < 2 * m then 1 else if p == 2 * m then 2 else 3 }

  lemma VaultAt(m: nat, p: nat)
    requires p < 2 * m + 2
    ensures |Labels(m)| == |Embeddings(m)| == |Realms(m)| == |Lone(m)| == 2 * m + 2
    ensures Labels(m)[p] == LabelAt(m, p) && Embeddings(m)[p] == Directions()[LabelAt(m, p)]
    ensures Realms(m)[p] == [0, 1, 2, 2][LabelAt(m, p)] && Lone(m)[p] == (p >= 2 * m)
  {
  }

  lemma FourDirections()
    ensures |Directions()| == 4 && forall c :: 0 <= c < 4 ==> |Directions()[c]| == 3
  {
  }

  lemma VaultShape(m: nat)
    requires m > 0
    ensures |Labels(m)| == |Embeddings(m)| == |Realms(m)| == |Lone(m)| == 2 * m + 2
    ensures forall v :: v in Embeddings(m) ==> |v| == 3
    ensures forall c :: 0 <= c < 4 ==> c in Labels(m)
  {
    hide Directions;
    FourDirections();
    VaultAt(m, 0);
    var l := Labels(m);
    assert l[0] == 0 && l[m] == 1 && l[2 * m] == 2 && l[2 * m + 1] == 3;
  }

  // ----- centroids -----

  lemma NothingSelected(c: int)
    ensures Select([], [], c) == []
  {
  }

  lemma {:induction false} SelectOfBoth(l: seq<int>, e: seq<Vec>, l': seq<int>, e': seq<Vec>, c: int)
    requires |l| == |e| && |l'| == |e'|
    ensures Select(l + l', e + e', c) == Select(l, e, c) + Select(l', e', c)
  {
    hide Select;
    if l == [] {
      NothingSelected(c);
      assert l + l' == l' && e + e' == e';
    } else {
      SelectOfBoth(l[1..], e[1..], l', e', c);
      SelectNext(l, e, c);
      SelectNext(l + l', e + e', c);
      assert (l + l')[1..] == l[1..] + l' && (e + e')[1..] == e[1..] + e';
    }
  }

  lemma {:induction false} SelectCopies(m: nat, l: int, v: Vec, c: int)
    ensures Select(Copies(m, l), Copies(m, v), c) == if l == c then Copies(m, v) else []
  {
    hide Select;
    if m == 0 {
      NothingSelected(c);
    } else {
      SelectCopies(m - 1, l, v, c);
      SelectNext(Copies(m, l), Copies(m, v), c);
      assert Copies(m, l)[1..] == Copies(m - 1, l) && Copies(m, v)[1..] == Copies(m - 1, v) && Copies(m, v) == [v] + Copies(m - 1, v);
    }
  }

  /** How many points have label `c`. */
  function Crowd(m: nat, c: nat): nat { if c < 2 then m else 1 }

  lemma InParts(m: nat)
    ensures Labels(m) == Copies<int>(m, 0) + Copies<int>(m, 1) + [2, 3]
  {
    assert Copies<nat>(m, 0) == Copies<int>(m, 0) && Copies<nat>(m, 1) == Copies<int>(m, 1);
  }

  /** Every label's points all lie in its direction. */
  lemma {:induction false} SelectDirection(m: nat, c: nat)
    requires c < 4 && m > 0
    ensures |Labels(m)| == |Embeddings(m)| && Select(Labels(m), Embeddings(m), c) == Copies(Crowd(m, c), Directions()[c])
  {
    hide Directions, Select, Copies, Labels;
    VaultShape(m);
    FourDirections();
    InParts(m);
    var d := Directions();
    var zeros, ones := Copies<int>(m, 0), Copies<int>(m, 1);
    SameLength(m, 0, d[0]);
    SameLength(m, 1, d[1]);
    SelectCopies(m, 0, d[0], c);
    SelectCopies(m, 1, d[1], c);
    SelectLone(d[2], d[3], c);
    SelectOfBoth(zeros, Copies(m, d[0]), ones, Copies(m, d[1]), c);
    SelectOfBoth(zeros + ones, Copies(m, d[0]) + Copies(m, d[1]), [2, 3], [d[2], d[3]], c);
  }

  lemma SameLength<S, T>(m: nat, x: S, y: T)
    ensures |Copies(m, x)| == |Copies(m, y)|
  {
  }

  lemma SelectLone(v: Vec, w: Vec, c: nat)
    ensures Select([2, 3], [v, w], c) == if c == 2 then Copies(1, v) else if c == 3 then Copies(1, w) else []
  {
    assert [2, 3][1..] == [3] && [v, w][1..] == [w] && Select([3], [w], c) == if c == 3 then [w] else [];
  }

  lemma {:induction false} SumOfCopies(k: nat, v: Vec, t: nat)
    requires t < |v|
    ensures SumAt(Copies(k, v), t) == k as real * v[t]
  {
    if k > 0 {
      SumOfCopies(k - 1, v, t);
      assert Copies(k, v)[1..] == Copies(k - 1, v);
      assert k as real * v[t] == (k - 1) as real * v[t] + v[t];
    }
  }

  lemma ProductQuotient(a: real, b: real)
    requires a > 0.0
    ensures a * b / a == b
  {
  }

  lemma {:induction false} MeanOfCopies(k: nat, v: Vec)
    requires k > 0
    ensures Mean(Copies(k, v), |v|) == v
  {
    hide SumAt, Copies;
    CopiesSize(k, v);
    var m := Mean(Copies(k, v), |v|);
    forall t | 0 <= t < |v| ensures m[t] == v[t] { QuotientOfCopies(k, v, t); }
  }

  lemma CopiesSize<T>(k: nat, x: T)
    ensures |Copies(k, x)| == k && forall y :: y in Copies(k, x) ==> y == x
  {
  }

  lemma {:induction false} QuotientOfCopies(k: nat, v: Vec, t: nat)
    requires k > 0 && t < |v|
    ensures SumAt(Copies(k, v), t) / k as real == v[t]
  {
    hide SumAt, Copies;
    SumOfCopies(k, v, t);
    ProductQuotient(k as real, v[t]);
  }

  lemma UnitRoot(x: real)
    requires x >= 0.0 && x * x == 1.0
    ensures x == 1.0
  {
    assert (x - 1.0) * (x + 1.0) == x * x - 1.0;
    ZeroFactor(x - 1.0, x + 1.0);
  }

  lemma SumSqThree(a: real, b: real, c: real)
    ensures SumSq([a, b, c]) == a * a + b * b + c * c
  {
    assert [a, b, c][1..] == [b, c] && [b, c][1..] == [c] && [c][1..] == [];
    assert SumSq([c]) == c * c;
    assert SumSq([b, c]) == b * b + c * c;
  }

  lemma DirectionSumsToOne(c: nat)
    requires c < 4
    ensures SumSq(Directions()[c]) == 1.0
  {
    hide SumSq;
    var v := Directions()[c];
    SumSqThree(v[0], v[1], v[2]);
    assert v == [v[0], v[1], v[2]];
  }

  lemma UnitIsNormal(v: Vec, norm: Vec -> real)
    requires norm(v) == 1.0
    ensures Normalize(v, norm) == v
  {
  }

  lemma {:induction false} DirectionIsUnit(norm: Vec -> real, c: nat)
    requires IsNorm(norm) && c < 4
    ensures Normalize(Directions()[c], norm) == Directions()[c]
  {
    hide Directions, SumSq, Normalize;
    FourDirections();
    DirectionSumsToOne(c);
    UnitRoot(norm(Directions()[c]));
    UnitIsNormal(Directions()[c], norm);
  }

  lemma {:induction false} ThemeCentroid(m: nat, norm: Vec -> real, c: nat)
    requires m > 0 && IsNorm(norm) && c < 4
    ensures Embedded(Labels(m), Embeddings(m), 3) && c in Labels(m)
    ensures Centroid(Labels(m), Embeddings(m), 3, norm, c) == Directions()[c]
  {
    hide Directions, Select, Mean, Normalize;
    FourDirections();
    VaultShape(m);
    SelectDirection(m, c);
    MeanOfCopies(Crowd(m, c), Directions()[c]);
    DirectionIsUnit(norm, c);
  }

  lemma {:induction false} AscendingUnique(s: seq<int>, t: seq<int>)
    requires Ascending(s) && Ascending(t) && forall x :: x in s <==> x in t
    ensures s == t
  {
    HasFirst(s);
    HasFirst(t);
    if s != [] {
      assert s[0] in t && s[0] in s;
      assert t[0] in s && t[0] in t;
      assert s[0] == t[0];
      forall x ensures x in s[1..] <==> x in t[1..] { Rest(s, x); Rest(t, x); }
      AscendingUnique(s[1..], t[1..]);
    }
  }

  lemma HasFirst(s: seq<int>)
    ensures s != [] ==> s[0] in s
  {
  }

  lemma Rest(s: seq<int>, x: int)
    requires Ascending(s) && s != []
    ensures x in s[1..] <==> x in s && x != s[0]
  {
    assert s == [s[0]] + s[1..];
    if x in s[1..] {
      var i :| 0 <= i < |s| - 1 && s[1..][i] == x;
      assert s[i + 1] == x;
    }
  }

  lemma {:induction false} FourLabels(m: nat)
    requires m > 0
    ensures UniqueLabels(Labels(m)) == [0, 1, 2, 3]
  {
    VaultShape(m);
    UniqueLabelsSorted(Labels(m));
    forall x: int ensures x in Labels(m) <==> x in [0, 1, 2, 3] {}
    AscendingUnique(UniqueLabels(Labels(m)), [0, 1, 2, 3]);
  }

  // ----- the Ward step from four themes to three realms -----

  function Masses4(m: nat): seq<real> { [m as real, m as real, 1.0, 1.0] }

  ghost function Themes(m: nat): (st: Ward)
    requires m > 0
    ensures Shape(st)
  {
    Init(Directions(), Masses4(m), 3)
  }

  lemma SqDistThree(a: real, b: real, c: real, d: real, e: real, f: real)
    ensures SqDist([a, b, c], [d, e, f]) == Sq(a, d) + Sq(b, e) + Sq(c, f)
  {
    assert [a, b, c][1..] == [b, c] && [d, e, f][1..] == [e, f] && [b, c][1..] == [c] && [e, f][1..] == [f] && [c][1..] == [] && [f][1..] == [];
    assert SqDist([c], [f]) == Sq(c, f);
    assert SqDist([b, c], [e, f]) == Sq(b, e) + Sq(c, f);
  }

  /** The lone directions are closer to each other than any other two. */
  lemma {:induction false} Distances(p: nat, q: nat)
    requires p < 4 && q < 4 && p != q
    ensures |Directions()[p]| == |Directions()[q]| == 3
    ensures var d := SqDist(Directions()[p], Directions()[q]); if p >= 2 && q >= 2 then d == 0.72 else d >= 0.8
  {
    var u, v := Directions()[p], Directions()[q];
    SqDistThree(u[0], u[1], u[2], v[0], v[1], v[2]);
    assert u == [u[0], u[1], u[2]] && v == [v[0], v[1], v[2]];
  }

  /** With at least one crowd in the pair the coefficient is at least 1 / 2. */
  lemma CoefAtLeast(a: real, b: real)
    requires a >= 1.0 && b >= 1.0
    ensures Coef(a, b) >= 0.5 && Coef(1.0, 1.0) == 0.5
  {
    assert Coef(a, b) * (a + b) == a * b;
    assert a * b - 0.5 * (a + b) == 0.5 * (a * (b - 1.0) + b * (a - 1.0));
    NotBelow(Coef(a, b) - 0.5, a + b);
  }

  lemma NotBelow(x: real, y: real)
    requires y > 0.0 && x * y >= 0.0
    ensures x >= 0.0
  {
  }

  lemma ProductAtLeast(c: real, x: real, lo: real)
    requires c >= 0.5 && x >= lo >= 0.0
    ensures c * x >= 0.5 * lo
  {
    assert c * x - 0.5 * x == (c - 0.5) * x;
    Product(c - 0.5, x);
  }

  lemma {:induction false} LonePairIsCheapest(m: nat)
    requires m > 0
    ensures IsArgMin(Themes(m), 2, 3)
  {
    hide SqDist, Directions, Coef;
    var st := Themes(m);
    FourDirections();
    Distances(2, 3);
    CoefAtLeast(1.0, 1.0);
    forall p: nat, q: nat | p < 4 && q < 4
      ensures !Less(Entry(st, p, q), Entry(st, 2, 3)) && (Before(p, q, 2, 3) ==> Less(Entry(st, 2, 3), Entry(st, p, q)))
    {
      if p != q {
        Distances(p, q);
        CoefAtLeast(Masses4(m)[p], Masses4(m)[q]);
        ProductAtLeast(Coef(Masses4(m)[p], Masses4(m)[q]), SqDist(Directions()[p], Directions()[q]), if p >= 2 && q >= 2 then 0.72 else 0.8);
      }
    }
  }

  lemma FourGroups(m: nat)
    requires m > 0
    ensures Themes(m).groups == map[0 := [0], 1 := [1], 2 := [2], 3 := [3]] && |Themes(m).groups| == 4
  {
    hide Directions;
    FourDirections();
    var g: Groups := map[0 := [0], 1 := [1], 2 := [2], 3 := [3]];
    assert Themes(m).groups == Singletons(4) == g;
    assert g.Keys == {0, 1, 2, 3};
  }

  lemma {:induction false} FirstMerge(m: nat)
    requires m > 0
    ensures |Themes(m).groups| == 4 && 2 in Themes(m).groups && 3 in Themes(m).groups && Next(Themes(m)) == Merge(Themes(m), 2, 3)
  {
    hide Themes, IsArgMin, ArgMin, Merge;
    var st := Themes(m);
    FourGroups(m);
    LonePairIsCheapest(m);
    var c := ArgMin(st);
    ArgMinUnique(st, c.0, c.1, 2, 3);
  }

  lemma {:induction false} ThreeRealms(m: nat)
    requires m > 0
    ensures Run(Themes(m), 3).groups == map[0 := [0], 1 := [1], 2 := [2, 3]]
  {
    hide Themes, Next, MergeGroups, Mix;
    var st := Themes(m);
    FourGroups(m);
    FirstMerge(m);
    assert Run(st, 3) == Run(Next(st), 3) == Next(st);
    MergedFour();
  }

  lemma MergedFour()
    ensures var g: Groups := map[0 := [0], 1 := [1], 2 := [2], 3 := [3]];
      MergeGroups(g, 2, 3) == map[0 := [0], 1 := [1], 2 := [2, 3]]
  {
    var g: Groups := map[0 := [0], 1 := [1], 2 := [2], 3 := [3]];
    var r: Groups := map[0 := [0], 1 := [1], 2 := [2, 3]];
    assert g[2] + g[3] == [2, 3];
    forall i ensures i in MergeGroups(g, 2, 3) <==> i in r {}
  }

  lemma {:induction false} RealmLabels(m: nat)
    requires m > 0
    ensures IsLabelling([0, 1, 2, 2], Run(Themes(m), 3).groups)
  {
    hide Run, Themes, KeyRank;
    ThreeRealms(m);
    var g: Groups := map[0 := [0], 1 := [1], 2 := [2, 3]];
    Ranks(g);
  }

  lemma Ranks(g: Groups)
    requires 0 in g && 1 in g
    ensures KeyRank(g, 0) == 0 && KeyRank(g, 1) == 1 && KeyRank(g, 2) == 2
  {
    assert KeyRank(g, 1) == 1;
  }

  lemma PlaceOf(c: nat)
    requires c < 4
    ensures c in [0, 1, 2, 3] && IndexOf(c, [0, 1, 2, 3]) == c
  {
    var i := IndexOf(c, [0, 1, 2, 3]);
    assert [0, 1, 2, 3][i] == c;
  }

  /** Every label is a level of its own until there are more of them than wanted. */
  lemma {:induction false} SameLabelsAbove(m: nat, norm: Vec -> real, n: nat)
    requires m > 0 && n >= 4
    ensures Embedded(Labels(m), Embeddings(m), 3) && IsParentLevel(Labels(m), Labels(m), Embeddings(m), 3, norm, n)
  {
    hide Labels, Embeddings, UniqueLabels;
    VaultShape(m);
    FourLabels(m);
    forall p | 0 <= p < 2 * m + 2 ensures Labels(m)[p] == IndexOr0(Labels(m)[p], [0, 1, 2, 3]) {
      VaultAt(m, p);
      PlaceOf(Labels(m)[p]);
    }
  }

  /** The Ward run over the themes starts from the four directions with their masses. */
  lemma {:induction false} ThemeInputs(m: nat, norm: Vec -> real)
    requires m > 0 && IsNorm(norm)
    ensures Embedded(Labels(m), Embeddings(m), 3) && forall c :: c in [0, 1, 2, 3] ==> c in Labels(m)
    ensures Centroids(Labels(m), Embeddings(m), 3, norm, [0, 1, 2, 3]) == Directions()
    ensures Masses(Labels(m), Embeddings(m), [0, 1, 2, 3]) == Masses4(m)
  {
    hide Select, Directions, Centroid, Labels, Embeddings;
    VaultShape(m);
    FourDirections();
    var children: seq<int> := [0, 1, 2, 3];
    forall i | 0 <= i < 4 ensures Centroids(Labels(m), Embeddings(m), 3, norm, children)[i] == Directions()[i] { ThemeCentroid(m, norm, i); }
    forall i | 0 <= i < 4 ensures Masses(Labels(m), Embeddings(m), children)[i] == Masses4(m)[i] { SelectDirection(m, i); }
  }

  /** The clustering joins the two lone themes into one realm and leaves the others. */
  lemma {:induction false} RealmsAreParents(m: nat, norm: Vec -> real)
    requires m > 0 && IsNorm(norm)
    ensures Embedded(Labels(m), Embeddings(m), 3) && IsParentLevel(Realms(m), Labels(m), Embeddings(m), 3, norm, 3)
  {
    hide Run, Init, IsLabelling, Centroids, Masses, Labels, Realms, Embeddings, UniqueLabels, Directions, Masses4;
    VaultShape(m);
    FourLabels(m);
    ThemeInputs(m, norm);
    var children: seq<int>, out: seq<nat> := [0, 1, 2, 3], [0, 1, 2, 2];
    assert ChildGroups(Labels(m), Embeddings(m), 3, norm, 3) == Run(Themes(m), 3).groups;
    RealmLabels(m);
    forall p | 0 <= p < 2 * m + 2 ensures Labels(m)[p] in children && Realms(m)[p] == out[IndexOf(Labels(m)[p], children)] {
      VaultAt(m, p);
      PlaceOf(Labels(m)[p]);
    }
    assert |out| == |children| && IsLabelling(out, ChildGroups(Labels(m), Embeddings(m), 3, norm, 3));
  }

  // ----- its noise -----

  lemma DotThree(a: real, b: real, c: real, d: real, e: real, f: real)
    ensures Dot([a, b, c], [d, e, f]) == a * d + b * e + c * f
  {
    assert [a, b, c][1..] == [b, c] && [d, e, f][1..] == [e, f] && [b, c][1..] == [c] && [e, f][1..] == [f];
    assert Dot([c], [f]) == c * f;
    assert Dot([b, c], [e, f]) == b * e + c * f;
  }

  /** Points in one direction have similarity 1, others less. */
  lemma {:induction false} DirectionDots(p: nat, q: nat)
    requires p < 4 && q < 4
    ensures var d := Dot(Directions()[p], Directions()[q]); if p == q then d == 1.0 else d < 1.0
  {
    var u, v := Directions()[p], Directions()[q];
    DotThree(u[0], u[1], u[2], v[0], v[1], v[2]);
    assert u == [u[0], u[1], u[2]] && v == [v[0], v[1], v[2]];
  }

  lemma {:induction false} PointDots(m: nat, i: nat, j: nat)
    requires i < 2 * m + 2 && j < 2 * m + 2
    ensures |Labels(m)| == |Embeddings(m)| == 2 * m + 2
    ensures var d := Dot(Embeddings(m)[i], Embeddings(m)[j]); d <= 1.0 && (d == 1.0 <==> Labels(m)[i] == Labels(m)[j])
  {
    hide Directions, Labels, Embeddings, Dot;
    VaultAt(m, i);
    VaultAt(m, j);
    DirectionDots(LabelAt(m, i), LabelAt(m, j));
  }

  /** The numbers from `a` up to `b`. */
  function Span(a: nat, b: nat): (r: set<nat>)
    requires a <= b
    ensures |r| == b - a && forall j: nat :: j in r <==> a <= j < b
  {
    if a == b then {} else Span(a, b - 1) + {b - 1}
  }

  /** A crowd holds `m` points. */
  lemma {:induction false} CrowdSize(m: nat, i: nat)
    requires i < 2 * m
    ensures |Labels(m)| == 2 * m + 2 && |SameLabel(Labels(m), Labels(m)[i])| == m
  {
    hide Labels;
    VaultAt(m, i);
    var same := SameLabel(Labels(m), Labels(m)[i]);
    forall p: nat | p < 2 * m + 2 ensures Labels(m)[p] == LabelAt(m, p) { VaultAt(m, p); }
    assert same == if i < m then Span(0, m) else Span(m, 2 * m);
  }

  function Indices(row: seq<Hit>): set<nat> { set a | 0 <= a < |row| :: row[a].index }

  lemma {:induction false} IndicesSize(row: seq<Hit>)
    requires DistinctHits(row)
    ensures |Indices(row)| == |row|
  {
    if row == [] {
      assert Indices(row) == {};
    } else {
      var front, h := row[..|row| - 1], row[|row| - 1];
      IndicesSize(front);
      assert Indices(row) == Indices(front) + {h.index};
    }
  }

  /** All hits of a point in a large crowd are of its crowd. */
  lemma {:induction false} CrowdHits(m: nat, search: Search, i: nat, a: nat)
    requires m > KNN_K + 1 && i < 2 * m && |search| == 2 * m + 2 && |Labels(m)| == |Embeddings(m)| == 2 * m + 2
    requires IsSearch(search, Embeddings(m)) && a < KNN_K + 1
    ensures |search[i]| == KNN_K + 1 && search[i][a].index < 2 * m + 2 && search[i][a].sim == 1.0
    ensures Labels(m)[search[i][a].index] == Labels(m)[i]
  {
    hide Labels, Embeddings, Dot, SameLabel;
    var row, same := search[i], SameLabel(Labels(m), Labels(m)[i]);
    assert IsTop(row, KNN_K + 1, Embeddings(m)[i], Embeddings(m));
    CrowdSize(m, i);
    IndicesSize(row);
    var j := Unlisted(row, same);
    SameLabelAt(Labels(m), Labels(m)[i], j);
    PointDots(m, i, j);
    PointDots(m, i, row[a].index);
  }

  lemma Unlisted(row: seq<Hit>, s: set<nat>) returns (j: nat)
    requires |s| > |Indices(row)|
    ensures j in s && !Listed(row, j)
  {
    if s <= Indices(row) { SubsetSize(s, Indices(row)); }
    j :| j in s && j !in Indices(row);
  }

  lemma SameLabelAt(labels: seq<nat>, l: nat, p: nat)
    ensures p in SameLabel(labels, l) <==> p < |labels| && labels[p] == l
  {
  }

  /** An edge that starts in a crowd stays in it. */
  lemma {:induction false} EdgeStaysInCrowd(m: nat, search: Search, i: nat, j: nat)
    requires m > KNN_K + 1 && i < 2 * m && |search| == 2 * m + 2 && |Labels(m)| == |Embeddings(m)| == 2 * m + 2
    requires IsSearch(search, Embeddings(m)) && PointsTo(search, i, j)
    ensures j < 2 * m + 2 && Labels(m)[j] == Labels(m)[i]
  {
    hide Labels, Embeddings, IsSearch;
    RowLength(search, Embeddings(m), i);
    var a :| 1 <= a < |search[i]| && search[i][a].index == j;
    CrowdHits(m, search, i, a);
  }

  lemma NearIff(search: Search, i: nat, j: nat)
    ensures j in Neighbours(search, i) <==> j < |search| && (PointsTo(search, i, j) || PointsTo(search, j, i))
  {
  }

  /** Every hit but the first is the point itself or a neighbour in its crowd. */
  lemma {:induction false} HitsAreNear(m: nat, search: Search, i: nat)
    requires m > KNN_K + 1 && i < 2 * m && |search| == 2 * m + 2 && |Labels(m)| == |Embeddings(m)| == 2 * m + 2
    requires IsSearch(search, Embeddings(m))
    ensures search[i] != [] && Indices(search[i][1..]) - {i} <= Neighbours(search, i) * SameLabel(Labels(m), Labels(m)[i])
  {
    hide Labels, Embeddings, SameLabel, IsSearch, Neighbours;
    var row := search[i];
    RowLength(search, Embeddings(m), i);
    forall j | j in Indices(row[1..]) && j != i ensures j in Neighbours(search, i) && j in SameLabel(Labels(m), Labels(m)[i]) {
      var a :| 0 <= a < |row| - 1 && row[1..][a].index == j;
      assert row[a + 1].index == j;
      CrowdHits(m, search, i, a + 1);
      SameLabelAt(Labels(m), Labels(m)[i], j);
      NearIff(search, i, j);
    }
  }

  /** A point's neighbours outside its crowd can only be the two lone points, and it has at least 19 in it. */
  lemma {:induction false} CrowdNeighbours(m: nat, search: Search, i: nat)
    requires m > KNN_K + 1 && i < 2 * m && |search| == 2 * m + 2 && |Labels(m)| == |Embeddings(m)| == 2 * m + 2
    requires IsSearch(search, Embeddings(m))
    ensures var near, same := Neighbours(search, i), SameLabel(Labels(m), Labels(m)[i]);
      near <= same + {2 * m, 2 * m + 1} && |near * same| >= KNN_K - 1
  {
    hide Labels, Embeddings, SameLabel, IsSearch, Neighbours, PointsTo, Indices;
    var near, same := Neighbours(search, i), SameLabel(Labels(m), Labels(m)[i]);
    forall j | j in near ensures j < 2 * m + 2 && (j < 2 * m ==> j in same) {
      SameLabelAt(Labels(m), Labels(m)[i], j);
      NearIff(search, i, j);
      if j < 2 * m { if PointsTo(search, i, j) { EdgeStaysInCrowd(m, search, i, j); } else { EdgeStaysInCrowd(m, search, j, i); } }
    }
    RowLength(search, Embeddings(m), i);
    var hits := Indices(search[i][1..]);
    IndicesSize(search[i][1..]);
    HitsAreNear(m, search, i);
    SubsetSize(hits - {i}, near * same);
    assert |hits - {i}| >= |hits| - 1;
  }

  lemma RowLength(search: Search, points: seq<Vec>, i: nat)
    requires IsSearch(search, points) && i < |points|
    ensures |search| == |points| && |search[i]| == KNN_K + 1 && DistinctHits(search[i]) && DistinctHits(search[i][1..])
  {
    assert IsTop(search[i], KNN_K + 1, points[i], points);
  }

  /** So it is not lonely. */
  lemma {:induction false} CrowdIsNotLonely(m: nat, search: Search, i: nat)
    requires m > KNN_K + 1 && i < 2 * m && |search| == 2 * m + 2 && |Labels(m)| == |Embeddings(m)| == 2 * m + 2
    requires IsSearch(search, Embeddings(m))
    ensures !Lonely(search, Labels(m), i)
  {
    hide Labels, Embeddings, IsSearch, Neighbours, SameLabel;
    CrowdNeighbours(m, search, i);
    var near, same := Neighbours(search, i), SameLabel(Labels(m), Labels(m)[i]);
    var out := {2 * m, 2 * m + 1};
    assert near == near * same + near * out - near * same + near * same;
    SubsetSize(near, near * same + out);
    assert |near * same + out| <= |near * same| + 2;
    SubsetSize(near * same, near);
    QuotientAgainst(|near * same| as real, |near| as real, NOISE_MEMBERSHIP_THRESHOLD);
  }

  /** A lone point has no neighbour of its own label. */
  lemma {:induction false} LoneIsLonely(m: nat, search: Search, i: nat)
    requires 2 * m <= i < 2 * m + 2 && |search| == |Labels(m)| == 2 * m + 2
    ensures Lonely(search, Labels(m), i)
  {
    hide Labels;
    var near, same := Neighbours(search, i), SameLabel(Labels(m), Labels(m)[i]);
    forall p: nat | p < 2 * m + 2 ensures Labels(m)[p] == LabelAt(m, p) { VaultAt(m, p); }
    assert near * same == {};
    if near != {} { QuotientAgainst(0.0, |near| as real, NOISE_MEMBERSHIP_THRESHOLD); }
  }

  lemma {:induction false} TotalOfOnes(s: seq<real>)
    requires forall a :: 0 <= a < |s| ==> s[a] == 1.0
    ensures SumOf(s) == |s| as real
  {
    if s != [] { TotalOfOnes(s[..|s| - 1]); }
  }

  lemma {:induction false} TotalAtMost(s: seq<real>)
    requires forall a :: 0 <= a < |s| ==> s[a] <= 1.0
    ensures SumOf(s) <= |s| as real
  {
    if s != [] { TotalAtMost(s[..|s| - 1]); }
  }

  lemma MeanBounds(s: seq<real>)
    requires s != []
    ensures (forall a :: 0 <= a < |s| ==> s[a] <= 1.0) ==> MeanOf(s) <= 1.0
    ensures (forall a :: 0 <= a < |s| ==> s[a] == 1.0) ==> MeanOf(s) == 1.0
  {
    QuotientAgainst(SumOf(s), |s| as real, 1.0);
    if forall a :: 0 <= a < |s| ==> s[a] <= 1.0 { TotalAtMost(s); }
    if forall a :: 0 <= a < |s| ==> s[a] == 1.0 { TotalOfOnes(s); }
  }

  /** Points of the crowds are as similar to their neighbours as points can be. */
  lemma {:induction false} CrowdIsSimilar(m: nat, search: Search, root: real -> real, i: nat)
    requires m > KNN_K + 1 && i < 2 * m && |search| == 2 * m + 2 && |Labels(m)| == |Embeddings(m)| == 2 * m + 2
    requires IsSearch(search, Embeddings(m)) && IsRoot(root)
    ensures var sims := MeanSims(search); sims[i] >= MeanOf(sims) - NOISE_KNN_SIGMA * root(Variance(sims))
  {
    hide Labels, Embeddings, IsTop, MeanOf, Variance;
    var sims := MeanSims(search);
    forall p | 0 <= p < |sims| ensures sims[p] <= 1.0 { SimAtMostOne(m, search, p); }
    RowLength(search, Embeddings(m), i);
    var own := seq(KNN_K, a requires 0 <= a < KNN_K => search[i][a + 1].sim);
    forall a | 0 <= a < KNN_K ensures own[a] == 1.0 { CrowdHits(m, search, i, a + 1); }
    MeanBounds(own);
    MeanBounds(sims);
    NoiseMeaning.VarianceIsNonNegative(sims);
  }

  lemma {:induction false} SimAtMostOne(m: nat, search: Search, p: nat)
    requires p < 2 * m + 2 && |search| == 2 * m + 2 && |Labels(m)| == |Embeddings(m)| == 2 * m + 2 && IsSearch(search, Embeddings(m))
    ensures MeanSim(search[p]) <= 1.0
  {
    hide Labels, Embeddings, Dot, MeanOf;
    assert IsTop(search[p], KNN_K + 1, Embeddings(m)[p], Embeddings(m));
    var own := seq(KNN_K, a requires 0 <= a < KNN_K => search[p][a + 1].sim);
    forall a | 0 <= a < KNN_K ensures own[a] <= 1.0 { PointDots(m, p, search[p][a + 1].index); }
    MeanBounds(own);
  }

  // ----- the median cluster -----

  function Below(s: seq<real>, x: real): nat { if s == [] then 0 else (if s[0] < x then 1 else 0) + Below(s[1..], x) }

  lemma {:induction false} BelowOfBoth(s: seq<real>, t: seq<real>, x: real)
    ensures Below(s + t, x) == Below(s, x) + Below(t, x)
  {
    if s == [] {
      assert s + t == t;
    } else {
      BelowOfBoth(s[1..], t, x);
      assert (s + t)[1..] == s[1..] + t;
    }
  }

  lemma {:induction false} DescendFacts(y: real, s: seq<real>, x: real)
    requires forall a, b :: 0 <= a < b < |s| ==> s[a] >= s[b]
    ensures var d := Descend(y, s);
      && Below(d, x) == Below(s, x) + (if y < x then 1 else 0)
      && (forall a, b :: 0 <= a < b < |d| ==> d[a] >= d[b]) && forall z :: z in d ==> z == y || z in s
  {
    if s == [] || y >= s[0] {
      assert Descend(y, s) == [y] + s && ([y] + s)[1..] == s;
    } else {
      DescendFacts(y, s[1..], x);
      var t := Descend(y, s[1..]);
      assert ([s[0]] + t)[1..] == t;
      forall a | 0 <= a < |t| ensures s[0] >= t[a] { assert t[a] in t; }
    }
  }

  lemma {:induction false} SortedFacts(s: seq<real>, x: real)
    ensures var d := Sorted(s); Below(d, x) == Below(s, x) && forall a, b :: 0 <= a < b < |d| ==> d[a] >= d[b]
  {
    if s != [] {
      var front, y := s[..|s| - 1], s[|s| - 1];
      SortedFacts(front, x);
      DescendFacts(y, Sorted(front), x);
      BelowOfBoth(front, [y], x);
      assert s == front + [y] && Below([y], x) == if y < x then 1 else 0;
    }
  }

  /** In a descending list everything behind a value below `x` is below `x`. */
  lemma {:induction false} BelowBehind(d: seq<real>, x: real, j: nat)
    requires (forall a, b :: 0 <= a < b < |d| ==> d[a] >= d[b]) && j < |d| && d[j] < x
    ensures Below(d, x) >= |d| - j
  {
    if j > 0 {
      BelowBehind(d[1..], x, j - 1);
    } else if |d| > 1 {
      BelowBehind(d[1..], x, 0);
    }
  }

  lemma {:induction false} FewBelow(s: seq<real>, x: real, k: nat)
    requires k <= |s| && forall a :: 0 <= a < k ==> s[a] >= x
    ensures Below(s, x) <= |s| - k
  {
    if k > 0 { FewBelow(s[1..], x, k - 1); } else if s != [] { FewBelow(s[1..], x, 0); }
  }

  /** The crowds are most of the points, so the membership rule applies. */
  lemma {:induction false} MembershipRuleApplies(m: nat)
    requires m > KNN_K + 1
    ensures MembershipApplies(Labels(m), KNN_K)
  {
    hide Labels, SameLabel, Sorted, Below;
    VaultShape(m);
    var s, n, x := Sizes(Labels(m)), 2 * m + 2, KNN_K as real;
    var d := Sorted(s);
    forall a | 0 <= a < 2 * m ensures s[a] >= x { CrowdSize(m, a); }
    FewBelow(s, x, 2 * m);
    SortedFacts(s, x);
    if d[m] < x { BelowBehind(d, x, m); }
    if d[m + 1] < x { BelowBehind(d, x, m + 1); }
    assert n / 2 == m + 1 && n % 2 == 0;
  }

  /** Whatever exact search and square root are used, the noise of the vault is its two lone points. */
  lemma {:induction false} LonePointsAreNoise(m: nat, search: Search, root: real -> real, noise: seq<bool>)
    requires m > KNN_K + 1 && IsRoot(root)
    requires |search| == |Labels(m)| == |Embeddings(m)| == 2 * m + 2
    requires IsSearch(search, Embeddings(m)) && IsNoise(noise, search, Labels(m), KNN_K, root)
    ensures noise == Lone(m)
  {
    hide Labels, Embeddings, IsSearch, Lonely, MembershipApplies, MeanSims, MeanOf, Variance;
    MembershipRuleApplies(m);
    var flagged := Flagged(search, Labels(m), KNN_K, root);
    forall i: nat | i < 2 * m + 2 ensures Flags(search, Labels(m), KNN_K, root, i) <==> i >= 2 * m {
      if i < 2 * m {
        CrowdIsNotLonely(m, search, i);
        CrowdIsSimilar(m, search, root, i);
      } else {
        LoneIsLonely(m, search, i);
      }
    }
    assert flagged == {2 * m, 2 * m + 1};
    assert Marked(noise) == flagged;
    forall i: nat | i < 2 * m + 2 ensures noise[i] == Lone(m)[i] {
      VaultAt(m, i);
      assert noise[i] <==> i in Marked(noise);
    }
  }

  // ----- the split -----

  /** Theme nesting can fail: of 144 points two lie alone and 71 in each of two crowds.  Every level is
    * the one the clustering makes of the level below it, at the targets for 144 points; the noise is
    * what the two rules flag on the nearest neighbours, within the cap.  It is the two lone points,
    * which lie in one realm, and so in one liminal territory, but in different themes. */
  lemma {:induction false} ThemeNestingCanFail(norm: Vec -> real, root: real -> real, search: Search, noise: seq<bool>)
    requires IsNorm(norm) && IsRoot(root)
    requires |search| == |Labels(71)| == |Embeddings(71)| == 144 && IsSearch(search, Embeddings(71))
    requires IsNoise(noise, search, Labels(71), KNN_K, root)
    ensures ScaleTargets(12.0) == Targets(17, 4, 3)
    ensures var labels, points, realms := Labels(71), Embeddings(71), Realms(71);
      && |labels| == |points| == |realms| == |noise| == 144 && Embedded(labels, points, 3)
      && IsParentLevel(labels, labels, points, 3, norm, 17) && IsParentLevel(labels, labels, points, 3, norm, 4)
      && IsParentLevel(realms, labels, points, 3, norm, 3)
      && Determines(labels, labels) && !Determines(Relabelled(labels, noise, realms), labels)
  {
    hide IsParentLevel, Relabelled, Labels, Realms, Embeddings, IsSearch, IsNoise, Lone, IsNorm, IsRoot;
    var labels, realms := Labels(71), Realms(71);
    VaultShape(71);
    SameLabelsAbove(71, norm, 17);
    SameLabelsAbove(71, norm, 4);
    RealmsAreParents(71, norm);
    LonePointsAreNoise(71, search, root, noise);
    VaultAt(71, 142);
    VaultAt(71, 143);
    ThemeNestingSurvivesIff(labels, noise, labels, realms);
  }
}
