/** `sorted(set(labels) - {-1})`: the labels in use, in ascending order. */
module SortedLabels {

  ghost predicate Ascending(s: seq<int>) { forall i, j :: 0 <= i < j < |s| ==> s[i] < s[j] }

  function InsertDistinct(x: int, s: seq<int>): seq<int> {
    if s == [] || x < s[0] then [x] + s
    else if x == s[0] then s
    else [s[0]] + InsertDistinct(x, s[1..])
  }

  /** `sorted(set(labels) - {-1})`. */
  function UniqueLabels(labels: seq<int>): seq<int> {
    if labels == [] then []
    else if labels[0] == -1 then UniqueLabels(labels[1..])
    else InsertDistinct(labels[0], UniqueLabels(labels[1..]))
  }

  lemma {:induction false} InsertDistinctSorts(x: int, s: seq<int>)
    requires Ascending(s)
    ensures Ascending(InsertDistinct(x, s))
    ensures forall y :: y in InsertDistinct(x, s) <==> y == x || y in s
  {
    if s == [] || x <= s[0] {
    } else {
      InsertDistinctSorts(x, s[1..]);
      var t := InsertDistinct(x, s[1..]);
      forall i | 0 <= i < |t| ensures s[0] < t[i] {
        assert t[i] in t;
        if t[i] != x { var j :| 0 <= j < |s| - 1 && s[1..][j] == t[i]; }
      }
      assert s == [s[0]] + s[1..];
    }
  }

  lemma {:induction false} UniqueLabelsSorted(labels: seq<int>)
    ensures Ascending(UniqueLabels(labels))
    ensures forall y :: y in UniqueLabels(labels) <==> y in labels && y != -1
  {
    if labels != [] {
      UniqueLabelsSorted(labels[1..]);
      if labels[0] != -1 { InsertDistinctSorts(labels[0], UniqueLabels(labels[1..])); }
    }
  }
}
