/** Real vectors, squared Euclidean distance, and the two-point identity Ward's method rests on. */
module Vectors {

  type Vec = seq<real>

  function Sq(x: real, y: real): real { (x - y) * (x - y) }

  function SqDist(u: Vec, v: Vec): real
    requires |u| == |v|
  {
    if u == [] then 0.0 else Sq(u[0], v[0]) + SqDist(u[1..], v[1..])
  }

  /** The mass-weighted mean of two points. */
  function Mix(a: real, u: Vec, b: real, v: Vec): (m: Vec)
    requires |u| == |v| && a > 0.0 && b > 0.0
    ensures |m| == |u|
  {
    if u == [] then [] else [(a * u[0] + b * v[0]) / (a + b)] + Mix(a, u[1..], b, v[1..])
  }

  lemma {:induction false} MixAt(a: real, u: Vec, b: real, v: Vec, t: nat)
    requires |u| == |v| && a > 0.0 && b > 0.0 && t < |u|
    ensures (a + b) * Mix(a, u, b, v)[t] == a * u[t] + b * v[t]
  {
    if t > 0 { MixAt(a, u[1..], b, v[1..], t - 1); }
  }

  function Coef(a: real, b: real): real
    requires a > 0.0 && b > 0.0
  {
    a * b / (a + b)
  }

  /** Ward's between-cluster distance. */
  function WardCost(a: real, u: Vec, b: real, v: Vec): real
    requires |u| == |v| && a > 0.0 && b > 0.0
  {
    Coef(a, b) * SqDist(u, v)
  }

  lemma {:induction false} SqDistSymmetric(u: Vec, v: Vec)
    requires |u| == |v|
    ensures SqDist(u, v) == SqDist(v, u) >= 0.0
  {
    if u != [] {
      SqDistSymmetric(u[1..], v[1..]);
      Square(u[0], v[0]);
    }
  }

  lemma Square(x: real, y: real)
    ensures Sq(x, y) == Sq(y, x) >= 0.0
  {
  }

  lemma {:induction false} SqDistSelf(u: Vec)
    ensures SqDist(u, u) == 0.0
  {
    if u != [] { SqDistSelf(u[1..]); }
  }

  lemma Product(x: real, y: real)
    requires x >= 0.0 && y >= 0.0
    ensures x * y >= 0.0
  {
  }

  lemma Distribute(c: real, x: real, y: real)
    ensures c * (x + y) == c * x + c * y
  {
  }

  lemma CoefFacts(a: real, b: real)
    requires a > 0.0 && b > 0.0
    ensures Coef(a, b) == Coef(b, a) > 0.0
    ensures Coef(a, b) * (a + b) == a * b
  {
  }

  lemma WardCostSymmetric(a: real, u: Vec, b: real, v: Vec)
    requires |u| == |v| && a > 0.0 && b > 0.0
    ensures WardCost(a, u, b, v) == WardCost(b, v, a, u) >= 0.0
  {
    CoefFacts(a, b);
    SqDistSymmetric(u, v);
    Product(Coef(a, b), SqDist(u, v));
  }

  /** The two-point identity in one coordinate, about the mean `m`. */
  lemma {:induction false} TwoPointScalar(a: real, x: real, b: real, z: real, y: real, m: real)
    requires a > 0.0 && b > 0.0 && (a + b) * m == a * x + b * z
    ensures a * Sq(x, y) + b * Sq(z, y) == Coef(a, b) * Sq(x, z) + (a + b) * Sq(m, y)
  {
    CoefFacts(a, b);
    var p, q := x - y, z - y;
    assert (a + b) * (m - y) == a * p + b * q;
    ScaledTwoPoint(a, p, b, q, m - y, Coef(a, b));
    assert x - z == p - q;
  }

  lemma {:induction false} ScaledTwoPoint(a: real, p: real, b: real, q: real, r: real, c: real)
    requires a > 0.0 && b > 0.0
    requires (a + b) * r == a * p + b * q && c * (a + b) == a * b
    ensures a * (p * p) + b * (q * q) == c * ((p - q) * (p - q)) + (a + b) * (r * r)
  {
    var s := a + b;
    var lhs := a * (p * p) + b * (q * q);
    var rhs := c * ((p - q) * (p - q)) + s * (r * r);
    // both sides scaled by s are the same polynomial
    assert s * rhs == (a * b) * ((p - q) * (p - q)) + (a * p + b * q) * (a * p + b * q) by {
      assert s * (c * ((p - q) * (p - q))) == (c * s) * ((p - q) * (p - q));
      assert s * (s * (r * r)) == (s * r) * (s * r);
    }
    assert s * lhs == (a * b) * ((p - q) * (p - q)) + (a * p + b * q) * (a * p + b * q);
    assert s * (lhs - rhs) == 0.0;
    assert lhs - rhs == 0.0;
  }

  /** Replacing two weighted points by their mean lowers the inertia about any `y` by `WardCost`. */
  lemma {:induction false} TwoPoint(a: real, u: Vec, b: real, v: Vec, y: Vec)
    requires |u| == |v| == |y| && a > 0.0 && b > 0.0
    ensures a * SqDist(u, y) + b * SqDist(v, y)
         == WardCost(a, u, b, v) + (a + b) * SqDist(Mix(a, u, b, v), y)
  {
    hide SqDist, Mix, Coef, Sq;
    if u == [] {
      NoCoordinates(a, u, b, v, y);
    } else {
      var m := Mix(a, u, b, v);
      TwoPoint(a, u[1..], b, v[1..], y[1..]);
      MixAt(a, u, b, v, 0);
      TwoPointScalar(a, u[0], b, v[0], y[0], m[0]);
      Unfold(a, u, b, v, y);
      AddTwoPoints(a, b, Coef(a, b), a + b,
        Sq(u[0], y[0]), Sq(v[0], y[0]), Sq(u[0], v[0]), Sq(m[0], y[0]),
        SqDist(u[1..], y[1..]), SqDist(v[1..], y[1..]), SqDist(u[1..], v[1..]), SqDist(m[1..], y[1..]));
    }
  }

  lemma NoCoordinates(a: real, u: Vec, b: real, v: Vec, y: Vec)
    requires u == v == y == [] && a > 0.0 && b > 0.0
    ensures a * SqDist(u, y) + b * SqDist(v, y) == WardCost(a, u, b, v) + (a + b) * SqDist(Mix(a, u, b, v), y)
  {
  }

  lemma Unfold(a: real, u: Vec, b: real, v: Vec, y: Vec)
    requires |u| == |v| == |y| > 0 && a > 0.0 && b > 0.0
    ensures var m := Mix(a, u, b, v);
      && m[1..] == Mix(a, u[1..], b, v[1..])
      && SqDist(u, y) == Sq(u[0], y[0]) + SqDist(u[1..], y[1..])
      && SqDist(v, y) == Sq(v[0], y[0]) + SqDist(v[1..], y[1..])
      && SqDist(u, v) == Sq(u[0], v[0]) + SqDist(u[1..], v[1..])
      && SqDist(m, y) == Sq(m[0], y[0]) + SqDist(m[1..], y[1..])
  {
  }

  lemma AddTwoPoints(a: real, b: real, c: real, s: real, p: real, q: real, d: real, m: real, p': real, q': real, d': real, m': real)
    requires a * p + b * q == c * d + s * m && a * p' + b * q' == c * d' + s * m'
    ensures a * (p + p') + b * (q + q') == c * (d + d') + s * (m + m')
  {
  }

  /** Lance-Williams for Ward: if merging `u` and `v` is no dearer than merging either with `z`,
    * then merging the result with `z` is no cheaper than that merge was. */
  lemma MergeKeepsDistance(a: real, u: Vec, b: real, v: Vec, c: real, z: Vec)
    requires |u| == |v| == |z| && a > 0.0 && b > 0.0 && c > 0.0
    ensures WardCost(a, u, b, v) <= WardCost(a, u, c, z) && WardCost(a, u, b, v) <= WardCost(b, v, c, z)
        ==> WardCost(a, u, b, v) <= WardCost(a + b, Mix(a, u, b, v), c, z)
  {
    hide SqDist, Mix, Coef;
    TwoPoint(a, u, b, v, z);
    MergeKeepsDistanceScalar(a, b, c, WardCost(a, u, b, v), SqDist(u, z), SqDist(v, z), SqDist(Mix(a, u, b, v), z));
  }

  lemma {:induction false} MergeKeepsDistanceScalar(a: real, b: real, c: real, d: real, du: real, dv: real, dm: real)
    requires a > 0.0 && b > 0.0 && c > 0.0
    ensures a * du + b * dv == d + (a + b) * dm && d <= Coef(a, c) * du && d <= Coef(b, c) * dv ==> d <= Coef(a + b, c) * dm
  {
    if a * du + b * dv == d + (a + b) * dm && d <= Coef(a, c) * du && d <= Coef(b, c) * dv {
      ScaleCost(a, c, du, d);
      ScaleCost(b, c, dv, d);
      Distribute(c, a * du, b * dv);
      Distribute(c, d, (a + b) * dm);
      assert d * (a + c) + d * (b + c) == d * (a + b + c) + c * d;
      UnscaleCost(a + b, c, dm, d);
    }
  }

  lemma ScaleCost(a: real, c: real, x: real, d: real)
    requires a > 0.0 && c > 0.0 && d <= Coef(a, c) * x
    ensures d * (a + c) <= c * (a * x)
  {
  }

  lemma UnscaleCost(a: real, c: real, x: real, d: real)
    requires a > 0.0 && c > 0.0 && d * (a + c) <= c * (a * x)
    ensures d <= Coef(a, c) * x
  {
  }

}
