/** Greedy one-to-one matching over scored pairs, best score first. */
module GreedyMatching {

  /** A `(jaccard, new_id, old_id)` tuple of the source. */
  datatype Edge = Edge(score: real, newId: int, oldId: int)

  /** The order of `matches.sort(reverse=True)`: tuples compared component by component. */
  predicate Above(e: Edge, f: Edge) {
    e.score > f.score || (e.score == f.score && (e.newId > f.newId || (e.newId == f.newId && e.oldId >= f.oldId)))
  }

  ghost predicate Sorted(s: seq<Edge>) { forall i, j :: 0 <= i < j < |s| ==> Above(s[i], s[j]) }

  function InsertEdge(e: Edge, s: seq<Edge>): seq<Edge> {
    if s == [] || Above(e, s[0]) then [e] + s else [s[0]] + InsertEdge(e, s[1..])
  }

  function SortEdges(s: seq<Edge>): seq<Edge> {
    if s == [] then [] else InsertEdge(s[0], SortEdges(s[1..]))
  }

  lemma {:induction false} InsertEdgeSorts(e: Edge, s: seq<Edge>)
    requires Sorted(s)
    ensures Sorted(InsertEdge(e, s))
    ensures forall f :: f in InsertEdge(e, s) <==> f == e || f in s
  {
    if s == [] || Above(e, s[0]) {
    } else {
      InsertEdgeSorts(e, s[1..]);
      var t := InsertEdge(e, s[1..]);
      assert forall i :: 0 <= i < |t| ==> t[i] in t;
    }
  }

  lemma {:induction false} SortEdgesSorts(s: seq<Edge>)
    ensures Sorted(SortEdges(s)) && forall f :: f in SortEdges(s) <==> f in s
  {
    if s != [] {
      SortEdgesSorts(s[1..]);
      InsertEdgeSorts(s[0], SortEdges(s[1..]));
    }
  }

  /** The pairs the greedy loop takes from a sorted list, given the clusters already used. */
  function Greedy(s: seq<Edge>, usedNew: set<int>, usedOld: set<int>): seq<Edge> {
    if s == [] then []
    else if s[0].newId in usedNew || s[0].oldId in usedOld then Greedy(s[1..], usedNew, usedOld)
    else [s[0]] + Greedy(s[1..], usedNew + {s[0].newId}, usedOld + {s[0].oldId})
  }

  /** Each cluster is used at most once. */
  ghost predicate IsMatching(m: seq<Edge>) {
    forall i, j :: 0 <= i < j < |m| ==> m[i].newId != m[j].newId && m[i].oldId != m[j].oldId
  }

  ghost predicate Avoids(m: seq<Edge>, usedNew: set<int>, usedOld: set<int>) {
    forall e :: e in m ==> e.newId !in usedNew && e.oldId !in usedOld
  }

  ghost predicate From(m: seq<Edge>, s: seq<Edge>) { forall e :: e in m ==> e in s }

  /** Two pairs compete for a cluster. */
  ghost predicate Share(e: Edge, f: Edge) { e.newId == f.newId || e.oldId == f.oldId }

  lemma {:induction false} GreedyIsMatching(s: seq<Edge>, usedNew: set<int>, usedOld: set<int>)
    ensures IsMatching(Greedy(s, usedNew, usedOld)) && From(Greedy(s, usedNew, usedOld), s)
    ensures Avoids(Greedy(s, usedNew, usedOld), usedNew, usedOld)
  {
    if s != [] {
      if s[0].newId in usedNew || s[0].oldId in usedOld {
        GreedyIsMatching(s[1..], usedNew, usedOld);
      } else {
        GreedyIsMatching(s[1..], usedNew + {s[0].newId}, usedOld + {s[0].oldId});
        var t := Greedy(s[1..], usedNew + {s[0].newId}, usedOld + {s[0].oldId});
        assert forall i :: 0 <= i < |t| ==> t[i] in t;
      }
    }
  }

  /** A pair the loop passes over lost a cluster to a taken pair that comes before it. */
  lemma {:induction false} RejectedIsBlocked(s: seq<Edge>, usedNew: set<int>, usedOld: set<int>, e: Edge) returns (f: Edge)
    requires Sorted(s) && e in s && e.newId !in usedNew && e.oldId !in usedOld
    ensures f in Greedy(s, usedNew, usedOld) && Share(e, f) && Above(f, e)
  {
    if s[0].newId in usedNew || s[0].oldId in usedOld {
      f := RejectedIsBlocked(s[1..], usedNew, usedOld, e);
    } else if Share(s[0], e) {
      f := s[0];
    } else {
      f := RejectedIsBlocked(s[1..], usedNew + {s[0].newId}, usedOld + {s[0].oldId}, e);
    }
  }

  // ----- half approximation -----

  function Total(m: seq<Edge>): real { if m == [] then 0.0 else m[0].score + Total(m[1..]) }

  lemma {:induction false} TotalWithout(m: seq<Edge>, k: nat)
    requires k < |m|
    ensures Total(m) == m[k].score + Total(m[..k] + m[k + 1..])
  {
    if k == 0 {
      assert m[..0] + m[1..] == m[1..];
    } else {
      TotalWithout(m[1..], k - 1);
      assert (m[..k] + m[k + 1..])[1..] == m[1..][..k - 1] + m[1..][k..];
    }
  }

  /** Dropping from a matching the one pair, if any, that uses the new cluster `n`. */
  lemma DropNew(m: seq<Edge>, n: int, bound: real) returns (r: seq<Edge>)
    requires IsMatching(m) && bound >= 0.0 && forall f :: f in m ==> f.score <= bound
    ensures IsMatching(r) && Total(m) <= Total(r) + bound
    ensures forall f :: f in r ==> f in m && f.newId != n
  {
    if k: nat :| k < |m| && m[k].newId == n {
      r := m[..k] + m[k + 1..];
      TotalWithout(m, k);
    } else {
      r := m;
    }
  }

  /** Dropping from a matching the one pair, if any, that uses the old cluster `o`. */
  lemma DropOld(m: seq<Edge>, o: int, bound: real) returns (r: seq<Edge>)
    requires IsMatching(m) && bound >= 0.0 && forall f :: f in m ==> f.score <= bound
    ensures IsMatching(r) && Total(m) <= Total(r) + bound
    ensures forall f :: f in r ==> f in m && f.oldId != o
  {
    if k: nat :| k < |m| && m[k].oldId == o {
      r := m[..k] + m[k + 1..];
      TotalWithout(m, k);
    } else {
      r := m;
    }
  }

  lemma FromNothing(m: seq<Edge>)
    requires From(m, [])
    ensures m == []
  {
    if m != [] {
      FirstIsIn(m);
      assert false;
    }
  }

  lemma FirstIsIn(m: seq<Edge>)
    requires m != []
    ensures m[0] in m
  {
  }

  /** The induction behind the half approximation: each taken pair blocks at most two others. */
  lemma {:induction false} GreedyIsHalf(s: seq<Edge>, usedNew: set<int>, usedOld: set<int>, m: seq<Edge>)
    requires Sorted(s) && forall e :: e in s ==> e.score >= 0.0
    requires IsMatching(m) && From(m, s) && Avoids(m, usedNew, usedOld)
    ensures Total(m) <= 2.0 * Total(Greedy(s, usedNew, usedOld))
  {
    if s == [] {
      FromNothing(m);
    } else {
      var e := s[0];
      if e.newId in usedNew || e.oldId in usedOld {
        GreedyIsHalf(s[1..], usedNew, usedOld, m);
      } else {
        forall f | f in m ensures f.score <= e.score { assert f in s; }
        var m' := DropNew(m, e.newId, e.score);
        var m'' := DropOld(m', e.oldId, e.score);
        GreedyIsHalf(s[1..], usedNew + {e.newId}, usedOld + {e.oldId}, m'');
      }
    }
  }
}
