/** The alignment recurrence behind `_h0_wasserstein1` and its optimality over all plans. */
module AlignmentDp {
  import opened TransportPlans

  function Min(x: real, y: real): real { if x <= y then x else y }

  ghost predicate Descending(s: seq<real>) {
    forall i, j :: 0 <= i < j < |s| ==> s[i] >= s[j]
  }

  function Front(s: seq<real>): seq<real>
    requires s != []
  {
    s[..|s| - 1]
  }

  function Last(s: seq<real>): real
    requires s != []
  {
    s[|s| - 1]
  }

  /** The three-move recurrence: match the two last bars, or send either to the diagonal. */
  function Align(a: seq<real>, b: seq<real>, price: Price): real
    decreases |a| + |b|
  {
    if a == [] && b == [] then 0.0
    else if a == [] then Align(a, Front(b), price) + price(Last(b))
    else if b == [] then Align(Front(a), b, price) + price(Last(a))
    else Min(Min(Align(Front(a), Front(b), price) + Abs(Last(a) - Last(b)),
                 Align(Front(a), b, price) + price(Last(a))),
             Align(a, Front(b), price) + price(Last(b)))
  }

  lemma FrontLast(s: seq<real>)
    requires s != []
    ensures multiset(s) == multiset{Last(s)} + multiset(Front(s))
    ensures Descending(s) ==> Descending(Front(s)) && forall x :: x in multiset(s) ==> x >= Last(s)
  {
    assert s == Front(s) + [Last(s)];
  }

  /** The recurrence is attained: an explicit plan with exactly that cost. */
  lemma {:induction false} AlignIsAttained(a: seq<real>, b: seq<real>, price: Price) returns (p: seq<Move>)
    ensures IsPlan(p, multiset(a), multiset(b)) && Cost(p, price) == Align(a, b, price)
    decreases |a| + |b|, 0
  {
    if a == [] && b == [] {
      p := [];
    } else if a != [] && b != [] && Align(a, b, price) == Align(Front(a), Front(b), price) + Abs(Last(a) - Last(b)) {
      p := AttainedBy(Match(Last(a), Last(b)), a, b, Front(a), Front(b), price);
    } else if a != [] && Align(a, b, price) == Align(Front(a), b, price) + price(Last(a)) {
      p := AttainedBy(DropLeft(Last(a)), a, b, Front(a), b, price);
    } else {
      p := AttainedBy(DropRight(Last(b)), a, b, a, Front(b), price);
    }
  }

  lemma {:induction false} AttainedBy(m: Move, a: seq<real>, b: seq<real>, a': seq<real>, b': seq<real>, price: Price) returns (p: seq<Move>)
    requires |a'| + |b'| < |a| + |b|
    requires a == if m.DropRight? then a' else a' + [m.a]
    requires b == if m.DropLeft? then b' else b' + [m.b]
    ensures IsPlan(p, multiset(a), multiset(b)) && Cost(p, price) == Align(a', b', price) + MoveCost(m, price)
    decreases |a'| + |b'|, 1
  {
    var q := AlignIsAttained(a', b', price);
    p := [m] + q;
    PlanWith(m, q, multiset(a'), multiset(b'), price);
    assert multiset(a) == LeftOf(m) + multiset(a');
    assert multiset(b) == RightOf(m) + multiset(b');
  }

  /** No plan, crossing or not, is cheaper than the recurrence. */
  lemma {:induction false} AlignIsLeast(a: seq<real>, b: seq<real>, p: seq<Move>, price: Price)
    requires Descending(a) && Descending(b)
    requires IsPlan(p, multiset(a), multiset(b))
    ensures Align(a, b, price) <= Cost(p, price)
    decreases |a| + |b|
  {
    if a == [] && b == [] {
      NoMoves(p);
    } else {
      var q, k := LastBarsMove(a, b, p, price);
      if a != [] && k == 0 {
        FrontLast(a);
        AlignIsLeast(Front(a), b, q, price);
      } else if k == 1 {
        FrontLast(b);
        AlignIsLeast(a, Front(b), q, price);
      } else {
        FrontLast(a);
        FrontLast(b);
        AlignIsLeast(Front(a), Front(b), q, price);
      }
    }
  }

  lemma NoMoves(p: seq<Move>)
    requires Lefts(p) == multiset{} && Rights(p) == multiset{}
    ensures p == []
  {
  }

  /** In any plan the last bars can be taken to move as one of the three moves of the
    * recurrence: drop the last left bar (0), drop the last right bar (1) or match both (2). */
  lemma LastBarsMove(a: seq<real>, b: seq<real>, p: seq<Move>, price: Price) returns (q: seq<Move>, which: nat)
    requires a != [] || b != []
    requires Descending(a) && Descending(b)
    requires IsPlan(p, multiset(a), multiset(b))
    ensures which <= 2
    ensures which == 0 ==> a != [] && IsPlan(q, multiset(Front(a)), multiset(b)) && Cost(q, price) + price(Last(a)) <= Cost(p, price)
    ensures which == 1 ==> b != [] && IsPlan(q, multiset(a), multiset(Front(b))) && Cost(q, price) + price(Last(b)) <= Cost(p, price)
    ensures which == 2 ==> a != [] && b != [] && IsPlan(q, multiset(Front(a)), multiset(Front(b)))
                           && Cost(q, price) + Abs(Last(a) - Last(b)) <= Cost(p, price)
  {
    if a != [] {
      FrontLast(a);
      var k := FindLeft(p, Last(a));
      if p[k].DropLeft? {
        assert multiset(b) == multiset{} + multiset(b);
        PlanWithout(p, k, multiset(Front(a)), multiset(b), price);
        return Without(p, k), 0;
      }
      TakeMoveOut(p, k, price);
      assert p[k].b in multiset(b);
      FrontLast(b);
      var l := FindRight(p, Last(b));
      if p[l].Match? {
        q := ParallelPlan(a, b, p, k, l, price);
        return q, 2;
      }
      q, which := DropLastRight(a, b, p, l, price);
    } else {
      FrontLast(b);
      var l := FindRight(p, Last(b));
      TakeMoveOut(p, l, price);
      assert p[l].DropRight?;
      q, which := DropLastRight(a, b, p, l, price);
    }
  }

  lemma DropLastRight(a: seq<real>, b: seq<real>, p: seq<Move>, l: nat, price: Price) returns (q: seq<Move>, which: nat)
    requires b != [] && IsPlan(p, multiset(a), multiset(b))
    requires l < |p| && p[l] == DropRight(Last(b))
    ensures which == 1 && IsPlan(q, multiset(a), multiset(Front(b))) && Cost(q, price) + price(Last(b)) == Cost(p, price)
  {
    FrontLast(b);
    assert multiset(a) == multiset{} + multiset(a);
    PlanWithout(p, l, multiset(a), multiset(Front(b)), price);
    q, which := Without(p, l), 1;
  }

  /** The exchange step: when both last bars are matched, a plan for the remaining bars is
    * cheaper by at least the price of matching the two last bars with each other. */
  lemma ParallelPlan(a: seq<real>, b: seq<real>, p: seq<Move>, k: nat, l: nat, price: Price) returns (q: seq<Move>)
    requires a != [] && b != [] && Descending(a) && Descending(b)
    requires IsPlan(p, multiset(a), multiset(b))
    requires k < |p| && p[k].Match? && p[k].a == Last(a)
    requires l < |p| && p[l].Match? && p[l].b == Last(b)
    ensures IsPlan(q, multiset(Front(a)), multiset(Front(b)))
    ensures Cost(q, price) + Abs(Last(a) - Last(b)) <= Cost(p, price)
  {
    FrontLast(a);
    FrontLast(b);
    if k == l {
      PlanWithout(p, k, multiset(Front(a)), multiset(Front(b)), price);
      q := Without(p, k);
    } else {
      q := Exchange(p, k, l, multiset(Front(a)), multiset(Front(b)), price);
    }
  }

  lemma Exchange(p: seq<Move>, k: nat, l: nat, A: multiset<real>, B: multiset<real>, price: Price) returns (q: seq<Move>)
    requires k < |p| && l < |p| && k != l && p[k].Match? && p[l].Match?
    requires IsPlan(p, multiset{p[k].a} + A, multiset{p[l].b} + B)
    requires forall x :: x in A ==> p[k].a <= x
    requires forall y :: y in B ==> p[l].b <= y
    ensures IsPlan(q, A, B)
    ensures Cost(q, price) + Abs(p[k].a - p[l].b) <= Cost(p, price)
  {
    var r, l' := Without(p, k), if l < k then l else l - 1;
    assert r[l'] == p[l];
    var s := TwoMovesOut(p, r, l', k, l, A, B, price);
    q := [Match(p[l].a, p[k].b)] + s;
    ConsMove(Match(p[l].a, p[k].b), s, price);
    Uncross(p[k].a, p[l].a, p[l].b, p[k].b);
  }

  lemma TwoMovesOut(p: seq<Move>, r: seq<Move>, l': nat, k: nat, l: nat, A: multiset<real>, B: multiset<real>, price: Price) returns (s: seq<Move>)
    requires k < |p| && l < |p| && p[k].Match? && p[l].Match?
    requires r == Without(p, k) && l' < |r| && r[l'] == p[l]
    requires Lefts(p) == multiset{p[k].a} + A && Rights(p) == multiset{p[l].b} + B
    ensures multiset{p[l].a} + Lefts(s) == A && p[l].a in A
    ensures multiset{p[k].b} + Rights(s) == B && p[k].b in B
    ensures Cost(p, price) == MoveCost(p[k], price) + MoveCost(p[l], price) + Cost(s, price)
  {
    s := Without(r, l');
    TakeMoveOut(p, k, price);
    TakeMoveOut(r, l', price);
    CancelSummand(multiset{p[k].a}, A, Lefts(r));
    SwapSummands(multiset{p[k].b}, multiset{p[l].b}, Rights(s));
    CancelSummand(multiset{p[l].b}, B, multiset{p[k].b} + Rights(s));
  }
}
