/** `_h0_wasserstein1`: the vectorised distance between two H0 persistence diagrams. */
module DiagramDistance {
  import opened Wrappers
  import opened TransportPlans
  import opened AlignmentDp
  import opened Ratios

  datatype Bar = Bar(birth: real, death: real)

  /** Persistence of each bar of a diagram. */
  function Persistence(d: seq<Bar>): seq<real>
  {
    seq(|d|, i requires 0 <= i < |d| => d[i].death - d[i].birth)
  }

  ghost predicate IsSqrt2(r: real) { r > 0.0 && r * r == 2.0 }

  /** Sending a bar to the diagonal costs its persistence over sqrt(2). */
  function DiagonalPrice(sqrt2: real): Price
    requires sqrt2 != 0.0
  {
    x => x / sqrt2
  }

  function Insert(x: real, s: seq<real>): seq<real> {
    if s == [] || x >= s[0] then [x] + s else [s[0]] + Insert(x, s[1..])
  }

  /** `np.sort(...)[::-1]`. */
  function SortDescending(s: seq<real>): seq<real> {
    if s == [] then [] else Insert(s[0], SortDescending(s[1..]))
  }

  lemma {:induction false} InsertSorts(x: real, s: seq<real>)
    requires Descending(s)
    ensures Descending(Insert(x, s))
    ensures multiset(Insert(x, s)) == multiset{x} + multiset(s)
    ensures forall y :: y in Insert(x, s) ==> y == x || y in s
  {
    if s == [] || x >= s[0] {
    } else {
      InsertSorts(x, s[1..]);
      assert s == [s[0]] + s[1..];
      SwapSummands(multiset{s[0]}, multiset{x}, multiset(s[1..]));
      var t := Insert(x, s[1..]);
      assert forall i :: 0 <= i < |t| ==> t[i] in t;
    }
  }

  lemma {:induction false} SortSorts(s: seq<real>)
    ensures Descending(SortDescending(s)) && multiset(SortDescending(s)) == multiset(s)
  {
    if s != [] {
      SortSorts(s[1..]);
      InsertSorts(s[0], SortDescending(s[1..]));
      assert s == [s[0]] + s[1..];
    }
  }

  /** Total diagonal price of the first `j` bars: the entry `Cfull[j]`. */
  function PrefixPrice(b: seq<real>, j: nat, price: Price): real
    requires j <= |b|
  {
    if j == 0 then 0.0 else PrefixPrice(b, j - 1, price) + price(b[j - 1])
  }

  /** Least of the first `j + 1` entries. */
  function MinUpTo(s: seq<real>, j: nat): real
    requires j < |s|
  {
    if j == 0 then s[0] else Min(MinUpTo(s, j - 1), s[j])
  }

  function Sum(s: seq<real>): real { if s == [] then 0.0 else Sum(Front(s)) + Last(s) }

  /** `np.cumsum` of the diagonal prices. */
  method CumulativePrices(b: seq<real>, price: Price) returns (c: array<real>)
    ensures fresh(c) && c.Length == |b|
    ensures forall j :: 0 <= j < |b| ==> c[j] == PrefixPrice(b, j + 1, price)
  {
    c := new real[|b|];
    var total := 0.0;
    for j := 0 to |b|
      invariant total == PrefixPrice(b, j, price)
      invariant forall l :: 0 <= l < j ==> c[l] == PrefixPrice(b, l + 1, price)
    {
      total := total + price(b[j]);
      c[j] := total;
    }
  }

  /** `np.minimum.accumulate`. */
  method MinimumAccumulate(s: array<real>) returns (t: array<real>)
    ensures fresh(t) && t.Length == s.Length
    ensures forall j :: 0 <= j < s.Length ==> t[j] == MinUpTo(s[..], j)
  {
    t := new real[s.Length];
    for j := 0 to s.Length
      invariant forall l :: 0 <= l < j ==> t[l] == MinUpTo(s[..], l)
    {
      t[j] := if j == 0 then s[0] else Min(t[j - 1], s[j]);
    }
  }

  /** Stage one: a row computed by one cumulative minimum is the row of the recurrence. */
  lemma {:induction false} ScanIsRecurrence(a: seq<real>, b: seq<real>, i: nat, prev: seq<real>, arr: seq<real>, j: nat, price: Price)
    requires i < |a| && j <= |b| && |prev| == |arr| == |b| + 1
    requires forall l :: 0 <= l <= |b| ==> prev[l] == Align(a[..i], b[..l], price)
    requires arr[0] == prev[0] + price(a[i])
    requires forall l :: 1 <= l <= |b| ==>
      arr[l] == Min(prev[l - 1] + Abs(a[i] - b[l - 1]), prev[l] + price(a[i])) - PrefixPrice(b, l, price)
    ensures PrefixPrice(b, j, price) + MinUpTo(arr, j) == Align(a[..i + 1], b[..j], price)
  {
    assert Front(a[..i + 1]) == a[..i] && Last(a[..i + 1]) == a[i];
    if j > 0 {
      ScanIsRecurrence(a, b, i, prev, arr, j - 1, price);
      assert Front(b[..j]) == b[..j - 1] && Last(b[..j]) == b[j - 1];
    }
  }

  lemma {:induction false} OneSided(b: seq<real>, j: nat, price: Price)
    requires j <= |b|
    ensures Align([], b[..j], price) == PrefixPrice(b, j, price) == Align(b[..j], [], price)
  {
    if j > 0 {
      OneSided(b, j - 1, price);
      assert Front(b[..j]) == b[..j - 1] && Last(b[..j]) == b[j - 1];
    }
  }

  lemma DivideSum(x: real, y: real, d: real)
    requires d != 0.0
    ensures (x + y) / d == x / d + y / d
  {
  }

  lemma {:induction false} PrefixPriceIsSum(b: seq<real>, sqrt2: real)
    requires sqrt2 != 0.0
    ensures PrefixPrice(b, |b|, DiagonalPrice(sqrt2)) == Sum(b) / sqrt2
  {
    if b != [] {
      PrefixPriceIsSum(Front(b), sqrt2);
      PrefixPriceOfFront(b, |b| - 1, DiagonalPrice(sqrt2));
      DivideSum(Sum(Front(b)), Last(b), sqrt2);
    }
  }

  lemma {:induction false} PrefixPriceOfFront(b: seq<real>, j: nat, price: Price)
    requires b != [] && j < |b|
    ensures PrefixPrice(b, j, price) == PrefixPrice(Front(b), j, price)
  {
    if j > 0 { PrefixPriceOfFront(b, j - 1, price); }
  }

  /** When one diagram is empty the distance is the other's total persistence over sqrt(2). */
  lemma EmptySide(b: seq<real>, sqrt2: real)
    requires sqrt2 != 0.0
    ensures Align([], b, DiagonalPrice(sqrt2)) == Sum(b) / sqrt2 == Align(b, [], DiagonalPrice(sqrt2))
  {
    OneSided(b, |b|, DiagonalPrice(sqrt2));
    PrefixPriceIsSum(b, sqrt2);
    assert b[..|b|] == b;
  }

  /** The recurrence on sorted diagrams is the least cost over every partial matching. */
  lemma AlignIsLeastCost(a: seq<real>, b: seq<real>, price: Price)
    requires Descending(a) && Descending(b)
    ensures IsLeastCost(Align(a, b, price), multiset(a), multiset(b), price)
  {
    var p := AlignIsAttained(a, b, price);
    forall q | IsPlan(q, multiset(a), multiset(b)) ensures Align(a, b, price) <= Cost(q, price) {
      AlignIsLeast(a, b, q, price);
    }
  }

  /** One pass of the source's loop: overwrite the row for `a[..i]` by the row for `a[..i + 1]`. */
  method NextRow(a: seq<real>, b: seq<real>, i: nat, prev: array<real>, c: array<real>, price: Price) returns (cur: array<real>)
    requires i < |a| && prev.Length == |b| + 1 && c.Length == |b|
    requires forall j :: 0 <= j < |b| ==> c[j] == PrefixPrice(b, j + 1, price)
    requires forall j :: 0 <= j <= |b| ==> prev[j] == Align(a[..i], b[..j], price)
    ensures fresh(cur) && cur.Length == |b| + 1
    ensures forall j :: 0 <= j <= |b| ==> cur[j] == Align(a[..i + 1], b[..j], price)
  {
    var n, ai := |b|, a[i];
    var arr := new real[n + 1];
    arr[0] := prev[0] + price(ai);
    forall j | 1 <= j <= n { arr[j] := Min(prev[j - 1] + Abs(ai - b[j - 1]), prev[j] + price(ai)) - c[j - 1]; }
    var low := MinimumAccumulate(arr);
    forall j | 0 <= j <= n ensures PrefixPrice(b, j, price) + low[j] == Align(a[..i + 1], b[..j], price) {
      ScanIsRecurrence(a, b, i, prev[..], arr[..], j, price);
    }
    cur := new real[n + 1];
    forall j | 0 <= j <= n { cur[j] := (if j == 0 then 0.0 else c[j - 1]) + low[j]; }
  }

  /** The source's loop over the first diagram. */
  method AlignByRows(a: seq<real>, b: seq<real>, price: Price) returns (distance: real)
    ensures distance == Align(a, b, price)
  {
    var n := |b|;
    var c := CumulativePrices(b, price);
    var prev := new real[n + 1];
    prev[0] := 0.0;
    forall j | 1 <= j <= n { prev[j] := c[j - 1]; }
    forall j | 0 <= j <= n ensures prev[j] == Align(a[..0], b[..j], price) { OneSided(b, j, price); }
    for i := 0 to |a|
      invariant fresh(prev) && prev != c && prev.Length == n + 1
      invariant forall j :: 0 <= j < n ==> c[j] == PrefixPrice(b, j + 1, price)
      invariant forall j :: 0 <= j <= n ==> prev[j] == Align(a[..i], b[..j], price)
    {
      prev := NextRow(a, b, i, prev, c, price);
    }
    assert a[..|a|] == a && b[..n] == b;
    distance := prev[n];
  }

  /** The source's function.  A missing diagram gives no value; otherwise the value is the
    * least cost over every partial matching of the two diagrams, crossing ones included. */
  method H0Wasserstein1(dPrev: Option<seq<Bar>>, dCurr: Option<seq<Bar>>, sqrt2: real) returns (r: Option<real>)
    requires IsSqrt2(sqrt2)
    ensures r.None? <==> dPrev.None? || dCurr.None?
    ensures r.Some? ==> IsLeastCost(r.value, multiset(Persistence(dPrev.value)), multiset(Persistence(dCurr.value)), DiagonalPrice(sqrt2))
  {
    if dPrev.None? || dCurr.None? { return None; }
    var da := SortDescending(Persistence(dPrev.value));
    var db := SortDescending(Persistence(dCurr.value));
    SortSorts(Persistence(dPrev.value));
    SortSorts(Persistence(dCurr.value));
    AlignIsLeastCost(da, db, DiagonalPrice(sqrt2));
    EmptySide(da, sqrt2);
    EmptySide(db, sqrt2);
    if |da| == 0 && |db| == 0 { return Some(0.0); }
    if |da| == 0 { return Some(Sum(db) / sqrt2); }
    if |db| == 0 { return Some(Sum(da) / sqrt2); }
    var distance := AlignByRows(da, db, DiagonalPrice(sqrt2));
    return Some(distance);
  }

  /** The distance as a function of the two lists of bars, in whatever order they come. */
  function Distance(a: seq<real>, b: seq<real>, price: Price): real {
    Align(SortDescending(a), SortDescending(b), price)
  }

  lemma DistanceIsLeastCost(a: seq<real>, b: seq<real>, price: Price)
    ensures IsLeastCost(Distance(a, b, price), multiset(a), multiset(b), price)
  {
    SortSorts(a);
    SortSorts(b);
    AlignIsLeastCost(SortDescending(a), SortDescending(b), price);
  }

  /** A least cost is unique, so the value `H0Wasserstein1` returns is `Distance`. */
  lemma LeastCostIsDistance(v: real, a: seq<real>, b: seq<real>, price: Price)
    ensures IsLeastCost(v, multiset(a), multiset(b), price) <==> v == Distance(a, b, price)
  {
    DistanceIsLeastCost(a, b, price);
  }

  /** Reordering the bars of either diagram does not change the distance. */
  lemma DistanceIgnoresOrder(a: seq<real>, a': seq<real>, b: seq<real>, b': seq<real>, price: Price)
    requires multiset(a) == multiset(a') && multiset(b) == multiset(b')
    ensures Distance(a, b, price) == Distance(a', b', price)
  {
    DistanceIsLeastCost(a, b, price);
    DistanceIsLeastCost(a', b', price);
  }

  /** Each bar counts for itself. */
  lemma PersistenceOfBoth(d: seq<Bar>, e: seq<Bar>)
    ensures Persistence(d + e) == Persistence(d) + Persistence(e)
  {
  }

  /** Between two single bars the distance is the difference of their persistences, or, where that is
    * less, the sum of the two over the square root of two. */
  lemma {:induction false} OneBarEach(p: Bar, q: Bar, sqrt2: real, v: real)
    requires IsSqrt2(sqrt2) && IsLeastCost(v, multiset(Persistence([p])), multiset(Persistence([q])), DiagonalPrice(sqrt2))
    ensures var x, y := p.death - p.birth, q.death - q.birth;
      var gap := if x < y then y - x else x - y;
      if gap * sqrt2 <= x + y then v == gap else v * sqrt2 == x + y
  {
    hide IsLeastCost, Persistence, Distance, Abs;
    var x, y, price := p.death - p.birth, q.death - q.birth, DiagonalPrice(sqrt2);
    OnePersistence(p);
    OnePersistence(q);
    LeastCostIsDistance(v, [x], [y], price);
    OneEach(x, y, price);
    DivideSum(x, y, sqrt2);
    OverRoot(Abs(x - y), x + y, sqrt2);
    AbsOf(x, y);
  }

  lemma OnePersistence(p: Bar)
    ensures Persistence([p]) == [p.death - p.birth] && Persistence([]) == []
  {
  }

  lemma AbsOf(x: real, y: real)
    ensures Abs(x - y) == if x < y then y - x else x - y
  {
  }

  lemma OneEach(x: real, y: real, price: Price)
    ensures Distance([x], [y], price) == Min(Abs(x - y), price(x) + price(y))
  {
    assert [x][1..] == [] && [y][1..] == [] && SortDescending([x]) == [x] && SortDescending([y]) == [y];
    assert Front([x]) == [] && Front([y]) == [] && Last([x]) == x && Last([y]) == y;
    assert Align([], [y], price) == price(y) && Align([x], [], price) == price(x);
  }

  lemma OverRoot(gap: real, sum: real, d: real)
    requires d > 0.0
    ensures gap <= sum / d <==> gap * d <= sum
    ensures sum / d * d == sum
  {
    QuotientAgainst(sum, d, gap);
    TimesQuotient(sum, d);
  }

  lemma TimesQuotient(x: real, d: real)
    requires d > 0.0
    ensures x / d * d == x
  {
  }

  /** Against a diagram without bars the distance is the persistence over the square root of two. */
  lemma {:induction false} OneBarAlone(p: Bar, sqrt2: real, v: real)
    requires IsSqrt2(sqrt2) && IsLeastCost(v, multiset(Persistence([p])), multiset(Persistence([])), DiagonalPrice(sqrt2))
    ensures v * sqrt2 == p.death - p.birth
  {
    hide IsLeastCost, Persistence, Distance;
    var x, price := p.death - p.birth, DiagonalPrice(sqrt2);
    OnePersistence(p);
    LeastCostIsDistance(v, [x], [], price);
    OneAlone(x, price);
    TimesQuotient(x, sqrt2);
  }

  lemma OneAlone(x: real, price: Price)
    ensures Distance([x], [], price) == price(x)
  {
    assert [x][1..] == [] && SortDescending([]) == [] && SortDescending([x]) == [x];
    assert Front([x]) == [] && Last([x]) == x && Align([], [], price) == 0.0;
  }

  lemma OptimalPlan(a: seq<real>, b: seq<real>, price: Price) returns (p: seq<Move>)
    ensures IsPlan(p, multiset(a), multiset(b)) && Cost(p, price) == Distance(a, b, price)
  {
    DistanceIsLeastCost(a, b, price);
    p :| IsPlan(p, multiset(a), multiset(b)) && Cost(p, price) == Distance(a, b, price);
  }

  lemma DistanceIsAtMost(a: seq<real>, b: seq<real>, p: seq<Move>, price: Price)
    requires IsPlan(p, multiset(a), multiset(b))
    ensures Distance(a, b, price) <= Cost(p, price)
  {
    DistanceIsLeastCost(a, b, price);
  }

  lemma DistanceIsAtMostFlipped(a: seq<real>, b: seq<real>, price: Price)
    ensures Distance(a, b, price) <= Distance(b, a, price)
  {
    var p := OptimalPlan(b, a, price);
    FlipPlan(p, price);
    DistanceIsAtMost(a, b, Flip(p), price);
  }

  /** The triangle inequality, by composing optimal plans through the middle diagram. */
  lemma TriangleInequality(a: seq<real>, b: seq<real>, c: seq<real>, price: Price)
    requires IsShort(price) && forall x :: x in b ==> x >= 0.0
    ensures Distance(a, c, price) <= Distance(a, b, price) + Distance(b, c, price)
  {
    var p := OptimalPlan(a, b, price);
    var q := OptimalPlan(b, c, price);
    assert forall x :: x in Rights(p) ==> x in b;
    var r := Compose(p, q, price);
    DistanceIsAtMost(a, c, r, price);
  }

  ghost predicate PositivePrice(price: Price) { forall x :: x > 0.0 ==> price(x) > 0.0 }

  ghost predicate AllPositive(s: multiset<real>) { forall x :: x in s ==> x > 0.0 }

  /** Every plan between positive diagrams costs at least nothing, and a free one matches equals. */
  lemma {:induction false} FreePlansMatchEquals(p: seq<Move>, price: Price)
    requires PositivePrice(price) && AllPositive(Lefts(p)) && AllPositive(Rights(p))
    ensures Cost(p, price) >= 0.0
    ensures Cost(p, price) == 0.0 ==> Lefts(p) == Rights(p)
  {
    if p != [] {
      var m, q := p[0], p[1..];
      assert forall x :: x in LeftOf(m) || x in Lefts(q) ==> x in Lefts(p);
      assert forall x :: x in RightOf(m) || x in Rights(q) ==> x in Rights(p);
      FreePlansMatchEquals(q, price);
      FreeMove(m, price);
    }
  }

  lemma FreeMove(m: Move, price: Price)
    requires PositivePrice(price) && AllPositive(LeftOf(m)) && AllPositive(RightOf(m))
    ensures MoveCost(m, price) >= 0.0
    ensures MoveCost(m, price) == 0.0 ==> LeftOf(m) == RightOf(m)
  {
  }

  function Stay(s: seq<real>): seq<Move> { if s == [] then [] else [Match(s[0], s[0])] + Stay(s[1..]) }

  lemma {:induction false} StayIsFree(s: seq<real>, price: Price)
    ensures IsPlan(Stay(s), multiset(s), multiset(s)) && Cost(Stay(s), price) == 0.0
  {
    if s != [] {
      StayIsFree(s[1..], price);
      ConsMove(Match(s[0], s[0]), Stay(s[1..]), price);
      assert s == [s[0]] + s[1..];
    }
  }

  /** Between positive diagrams the distance is zero exactly when they are the same multiset. */
  lemma ZeroIffEqual(a: seq<real>, b: seq<real>, price: Price)
    requires PositivePrice(price) && AllPositive(multiset(a)) && AllPositive(multiset(b))
    ensures Distance(a, b, price) >= 0.0
    ensures Distance(a, b, price) == 0.0 <==> multiset(a) == multiset(b)
  {
    var p := OptimalPlan(a, b, price);
    FreePlansMatchEquals(p, price);
    if multiset(a) == multiset(b) {
      StayIsFree(a, price);
      DistanceIsAtMost(a, b, Stay(a), price);
    }
  }

  lemma Product(x: real, y: real)
    requires x >= 0.0 && y >= 0.0
    ensures x * y >= 0.0
  {
  }

  lemma QuotientSign(x: real, d: real)
    requires d >= 1.0 && x >= 0.0
    ensures 0.0 <= x / d <= x && (x > 0.0 ==> x / d > 0.0)
  {
  }

  lemma QuotientIsShort(a: real, b: real, d: real)
    requires d >= 1.0
    ensures a / d <= Abs(a - b) + b / d
  {
    assert a / d - b / d == (a - b) / d;
    if a >= b { QuotientSign(a - b, d); } else { QuotientSign(b - a, d); }
  }

  /** The source's price, persistence over sqrt(2), has what the metric laws need. */
  lemma Sqrt2PriceIsShort(sqrt2: real)
    requires IsSqrt2(sqrt2)
    ensures IsShort(DiagonalPrice(sqrt2)) && PositivePrice(DiagonalPrice(sqrt2))
  {
    assert sqrt2 >= 1.0 by { if sqrt2 < 1.0 { Product(1.0 - sqrt2, sqrt2); } }
    var price := DiagonalPrice(sqrt2);
    forall a, b ensures price(a) <= Abs(a - b) + price(b) { QuotientIsShort(a, b, sqrt2); }
    forall x | x >= 0.0 ensures price(x) >= 0.0 && (x > 0.0 ==> price(x) > 0.0) { QuotientSign(x, sqrt2); }
  }

  /** The source's distance is a metric on multisets of positive persistences. */
  lemma DistanceIsMetric(a: seq<real>, b: seq<real>, c: seq<real>, sqrt2: real)
    requires IsSqrt2(sqrt2)
    requires AllPositive(multiset(a)) && AllPositive(multiset(b)) && AllPositive(multiset(c))
    ensures var price := DiagonalPrice(sqrt2);
      && 0.0 <= Distance(a, b, price) == Distance(b, a, price)
      && (Distance(a, b, price) == 0.0 <==> multiset(a) == multiset(b))
      && Distance(a, c, price) <= Distance(a, b, price) + Distance(b, c, price)
  {
    var price := DiagonalPrice(sqrt2);
    Sqrt2PriceIsShort(sqrt2);
    DistanceIsAtMostFlipped(a, b, price);
    DistanceIsAtMostFlipped(b, a, price);
    ZeroIffEqual(a, b, price);
    assert forall x :: x in b ==> x in multiset(b);
    TriangleInequality(a, b, c, price);
  }
}
