/** Partial matchings between two persistence diagrams, as multisets of death values.
  *
  * A plan is a list of moves: a matched pair, or a bar of either diagram sent to the
  * diagonal.  Nothing orders the moves, so crossing matchings are plans like any other.
  * `price` says what the diagonal costs; `_h0_wasserstein1` charges persistence/sqrt(2). */
module TransportPlans {

  datatype Move = Match(a: real, b: real) | DropLeft(a: real) | DropRight(b: real)

  /** What sending a bar to the diagonal costs, as a function of its persistence. */
  type Price = real -> real

  function Abs(x: real): real { if x < 0.0 then -x else x }

  function MoveCost(m: Move, price: Price): real {
    match m
    case Match(a, b) => Abs(a - b)
    case DropLeft(a) => price(a)
    case DropRight(b) => price(b)
  }

  function Cost(p: seq<Move>, price: Price): real {
    if p == [] then 0.0 else MoveCost(p[0], price) + Cost(p[1..], price)
  }

  function LeftOf(m: Move): multiset<real> {
    match m
    case Match(a, _) => multiset{a}
    case DropLeft(a) => multiset{a}
    case DropRight(_) => multiset{}
  }

  function RightOf(m: Move): multiset<real> {
    match m
    case Match(_, b) => multiset{b}
    case DropLeft(_) => multiset{}
    case DropRight(b) => multiset{b}
  }

  function Lefts(p: seq<Move>): multiset<real> {
    if p == [] then multiset{} else LeftOf(p[0]) + Lefts(p[1..])
  }

  function Rights(p: seq<Move>): multiset<real> {
    if p == [] then multiset{} else RightOf(p[0]) + Rights(p[1..])
  }

  /** `p` uses every bar of `A` and every bar of `B` exactly once. */
  ghost predicate IsPlan(p: seq<Move>, A: multiset<real>, B: multiset<real>) {
    Lefts(p) == A && Rights(p) == B
  }

  /** `v` is attained by some plan from `A` to `B` and no plan is cheaper. */
  ghost predicate IsLeastCost(v: real, A: multiset<real>, B: multiset<real>, price: Price) {
    (exists p :: IsPlan(p, A, B) && Cost(p, price) == v) &&
    (forall p :: IsPlan(p, A, B) ==> v <= Cost(p, price))
  }

  function Without(p: seq<Move>, k: nat): seq<Move>
    requires k < |p|
  {
    p[..k] + p[k + 1..]
  }

  lemma ConsMove(m: Move, p: seq<Move>, price: Price)
    ensures Cost([m] + p, price) == MoveCost(m, price) + Cost(p, price)
    ensures Lefts([m] + p) == LeftOf(m) + Lefts(p)
    ensures Rights([m] + p) == RightOf(m) + Rights(p)
  {
  }

  lemma SwapSummands<T>(x: multiset<T>, y: multiset<T>, z: multiset<T>)
    ensures x + (y + z) == y + (x + z)
  {
  }

  lemma CancelSummand<T>(x: multiset<T>, y: multiset<T>, z: multiset<T>)
    requires x + y == x + z
    ensures y == z
  {
    assert y == (x + y) - x;
    assert z == (x + z) - x;
  }

  /** Cost and both marginals are sums over the moves, whatever their position. */
  lemma {:induction false} TakeMoveOut(p: seq<Move>, k: nat, price: Price)
    requires k < |p|
    ensures Cost(p, price) == MoveCost(p[k], price) + Cost(Without(p, k), price)
    ensures Lefts(p) == LeftOf(p[k]) + Lefts(Without(p, k))
    ensures Rights(p) == RightOf(p[k]) + Rights(Without(p, k))
  {
    hide MoveCost, LeftOf, RightOf;
    if k == 0 {
      assert Without(p, 0) == p[1..];
    } else {
      var q := Without(p[1..], k - 1);
      TakeMoveOut(p[1..], k - 1, price);
      ConsMove(p[0], q, price);
      assert Without(p, k) == [p[0]] + q;
      SwapSummands(LeftOf(p[0]), LeftOf(p[k]), Lefts(q));
      SwapSummands(RightOf(p[0]), RightOf(p[k]), Rights(q));
    }
  }

  lemma PlanWithout(p: seq<Move>, k: nat, A: multiset<real>, B: multiset<real>, price: Price)
    requires k < |p|
    requires IsPlan(p, LeftOf(p[k]) + A, RightOf(p[k]) + B)
    ensures IsPlan(Without(p, k), A, B)
    ensures Cost(p, price) == MoveCost(p[k], price) + Cost(Without(p, k), price)
  {
    TakeMoveOut(p, k, price);
    CancelSummand(LeftOf(p[k]), A, Lefts(Without(p, k)));
    CancelSummand(RightOf(p[k]), B, Rights(Without(p, k)));
  }

  lemma PlanWith(m: Move, p: seq<Move>, A: multiset<real>, B: multiset<real>, price: Price)
    requires IsPlan(p, A, B)
    ensures IsPlan([m] + p, LeftOf(m) + A, RightOf(m) + B)
    ensures Cost([m] + p, price) == MoveCost(m, price) + Cost(p, price)
  {
  }

  lemma {:induction false} FindLeft(p: seq<Move>, x: real) returns (k: nat)
    requires x in Lefts(p)
    ensures k < |p| && (p[k] == DropLeft(x) || (p[k].Match? && p[k].a == x))
  {
    if x in LeftOf(p[0]) {
      k := 0;
    } else {
      var k' := FindLeft(p[1..], x);
      k := k' + 1;
    }
  }

  lemma {:induction false} FindRight(p: seq<Move>, y: real) returns (k: nat)
    requires y in Rights(p)
    ensures k < |p| && (p[k] == DropRight(y) || (p[k].Match? && p[k].b == y))
  {
    if y in RightOf(p[0]) {
      k := 0;
    } else {
      var k' := FindRight(p[1..], y);
      k := k' + 1;
    }
  }

  function FlipMove(m: Move): Move {
    match m
    case Match(a, b) => Match(b, a)
    case DropLeft(a) => DropRight(a)
    case DropRight(b) => DropLeft(b)
  }

  function Flip(p: seq<Move>): seq<Move> {
    if p == [] then [] else [FlipMove(p[0])] + Flip(p[1..])
  }

  /** Reading a plan backwards is a plan in the other direction at the same price. */
  lemma {:induction false} FlipPlan(p: seq<Move>, price: Price)
    ensures Lefts(Flip(p)) == Rights(p) && Rights(Flip(p)) == Lefts(p)
    ensures Cost(Flip(p), price) == Cost(p, price)
  {
    if p != [] {
      FlipPlan(p[1..], price);
      ConsMove(FlipMove(p[0]), Flip(p[1..]), price);
    }
  }

  /** Replacing two crossing matches by the two parallel ones never costs more. */
  lemma Uncross(x: real, x': real, y: real, y': real)
    requires x <= x' && y <= y'
    ensures Abs(x - y) + Abs(x' - y') <= Abs(x - y') + Abs(x' - y)
  {
  }

  /** The diagonal is a short cut past no bar, and never pays: what composing plans needs. */
  ghost predicate IsShort(price: Price) {
    (forall a, b :: price(a) <= Abs(a - b) + price(b)) &&
    (forall b :: b >= 0.0 ==> price(b) >= 0.0)
  }

  /** What becomes of a bar when a move that yields `b` is followed by one that consumes it. */
  function Through(m: Move, n: Move): seq<Move>
    requires !m.DropLeft? && !n.DropRight? && m.b == n.a
  {
    match (m, n)
    case (Match(a, _), Match(_, c)) => [Match(a, c)]
    case (Match(a, _), DropLeft(_)) => [DropLeft(a)]
    case (DropRight(_), Match(_, c)) => [DropRight(c)]
    case (DropRight(_), DropLeft(_)) => []
  }

  lemma ThroughIsCheaper(m: Move, n: Move, price: Price)
    requires IsShort(price)
    requires !m.DropLeft? && !n.DropRight? && m.b == n.a >= 0.0
    ensures Cost(Through(m, n), price) <= MoveCost(m, price) + MoveCost(n, price)
    ensures Lefts(Through(m, n)) == LeftOf(m) && Rights(Through(m, n)) == RightOf(n)
  {
    assert m.Match? ==> price(m.a) <= Abs(m.a - m.b) + price(m.b);
    assert n.Match? ==> price(n.b) <= Abs(n.b - n.a) + price(n.a);
  }

  lemma PrependThrough(m: Move, n: Move, s: seq<Move>, price: Price) returns (r: seq<Move>)
    requires IsShort(price)
    requires !m.DropLeft? && !n.DropRight? && m.b == n.a >= 0.0
    ensures Cost(r, price) <= MoveCost(m, price) + MoveCost(n, price) + Cost(s, price)
    ensures IsPlan(r, LeftOf(m) + Lefts(s), RightOf(n) + Rights(s))
  {
    ThroughIsCheaper(m, n, price);
    var t := Through(m, n);
    if t == [] {
      r := s;
    } else {
      r := t + s;
      assert t == [t[0]] + [];
      ConsMove(t[0], s, price);
      ConsMove(t[0], [], price);
    }
  }

  /** Plans compose: going from `A` to `C` through `B` costs at most both legs. */
  lemma {:induction false} Compose(p: seq<Move>, q: seq<Move>, price: Price) returns (r: seq<Move>)
    requires IsShort(price)
    requires Rights(p) == Lefts(q)
    requires forall x :: x in Rights(p) ==> x >= 0.0
    ensures IsPlan(r, Lefts(p), Rights(q))
    ensures Cost(r, price) <= Cost(p, price) + Cost(q, price)
  {
    if p == [] {
      r := q;
    } else if p[0].DropLeft? {
      var s := Compose(p[1..], q, price);
      r := [p[0]] + s;
      ConsMove(p[0], s, price);
    } else {
      var b := p[0].b;
      assert b in Rights(p);
      var k := FindLeft(q, b);
      TakeMoveOut(q, k, price);
      CancelSummand(multiset{b}, Rights(p[1..]), Lefts(Without(q, k)));
      assert forall x :: x in Rights(p[1..]) ==> x in Rights(p);
      var s := Compose(p[1..], Without(q, k), price);
      r := PrependThrough(p[0], q[k], s, price);
    }
  }
}
