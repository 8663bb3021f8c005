/** What a stabilised run decides, in numbers: which pairs may match and which do, which ids the others
  * get, and which events and lineage rows follow. */
module StabilizeRules {
  import opened Wrappers
  import opened Ratios
  import opened SortedLabels
  import opened Clusters
  import opened GreedyMatching
  import opened StabilizeSpec
  import opened StabilizeMatching
  import opened StabilizeIdentity

  // ----- which pairs may match -----

  /** A pair may match exactly if the two clusters share three tenths of their union, or, for an
    * anchored old cluster, fifteen hundredths. */
  lemma AdmissibleIff(e: Edge, before: Assignment, after: Assignment, anchored: set<int>)
    ensures var x, y := Members(after, e.newId), Members(before, e.oldId);
      Admissible(e, before, after, anchored) <==>
        && e.newId in Keys(after) && e.oldId in Keys(before) && e.score * |x + y| as real == |x * y| as real
        && (10 * |x * y| >= 3 * |x + y| || (e.oldId in anchored && 100 * |x * y| >= 15 * |x + y|))
  {
    hide Keys, Members;
    var x, y := Members(after, e.newId), Members(before, e.oldId);
    KeysAreLabels(after);
    KeysAreLabels(before);
    if e.newId in Keys(after) {
      NotEmpty(x, y);
      QuotientAgainst(|x * y| as real, |x + y| as real, 0.3);
      QuotientAgainst(|x * y| as real, |x + y| as real, 0.15);
      QuotientIs(|x * y| as real, |x + y| as real, e.score);
    }
  }

  lemma NotEmpty(x: set<Pid>, y: set<Pid>)
    requires x != {}
    ensures |x + y| > 0
  {
    assert x + y != {};
  }

  lemma QuotientIs(a: real, b: real, q: real)
    requires b > 0.0
    ensures a / b == q <==> q * b == a
  {
  }

  /** Anchoring more territories never takes a pair away. */
  lemma AnchoringHelps(e: Edge, before: Assignment, after: Assignment, anchored: set<int>, more: set<int>)
    ensures Admissible(e, before, after, anchored) ==> Admissible(e, before, after, anchored + more)
  {
    hide Keys, Score;
  }

  // ----- which of them do -----

  /** The order of the greedy loop: score first, then the greater new id, then the greater old one. */
  predicate Outranks(f: Edge, e: Edge) {
    f.score > e.score || (f.score == e.score && (f.newId > e.newId || (f.newId == e.newId && f.oldId > e.oldId)))
  }

  /** A pair is chosen exactly if it may match and no chosen pair that outranks it takes one of its clusters. */
  lemma {:induction false} ChosenIff(before: Assignment, after: Assignment, anchored: set<int>, e: Edge)
    ensures e in Chosen(before, after, anchored) <==>
      Admissible(e, before, after, anchored) && forall f :: f in Chosen(before, after, anchored) && Share(e, f) ==> !Outranks(f, e)
  {
    hide Chosen, Admissible;
    var m := Chosen(before, after, anchored);
    ChosenFacts(before, after, anchored);
    if e in m {
      forall f | f in m && Share(e, f) ensures f == e { SharedIsSame(m, e, f); }
    } else if Admissible(e, before, after, anchored) {
      var f := RejectedLost(before, after, anchored, e);
      assert f != e && Outranks(f, e);
    }
  }

  lemma SharedIsSame(m: seq<Edge>, e: Edge, f: Edge)
    requires IsMatching(m) && e in m && f in m && Share(e, f)
    ensures e == f
  {
    var i :| 0 <= i < |m| && m[i] == e;
    var j :| 0 <= j < |m| && m[j] == f;
  }

  /** A new cluster that meets one old cluster only, which meets no other new one, gets its id exactly if
    * the two share enough. */
  lemma {:induction false} SoleCandidate(mapping: map<int, int>, events: seq<Event>, lineage: seq<Lineage>,
                                         before: Assignment, after: Assignment, anchored: set<int>, reserved: set<int>, n: int, o: int)
    requires before != [] && IsResult(mapping, events, lineage, before, after, anchored, reserved) && n in Keys(after) && o in Keys(before)
    requires forall o' :: o' in Keys(before) && o' != o ==> Members(after, n) * Members(before, o') == {}
    requires forall n' :: n' in Keys(after) && n' != n ==> Members(after, n') * Members(before, o) == {}
    ensures var x, y := Members(after, n), Members(before, o);
      n in mapping && (mapping[n] == o <==> 10 * |x * y| >= 3 * |x + y| || (o in anchored && 100 * |x * y| >= 15 * |x + y|))
  {
    hide Keys, Members, Chosen, FinalMapping, FinalEvents, IsLineage, Known, IsHighWater, Admissible;
    var next :| IsLaterRun(mapping, events, lineage, before, after, anchored, reserved, next);
    var m, e := Chosen(before, after, anchored), Edge(Score(before, after, n, o), n, o);
    IdsAreOldOrFresh(before, after, anchored, reserved, next, n);
    OldIsKnown(before, after, reserved);
    MappedOrFormed(before, after, anchored, next);
    ChosenFacts(before, after, anchored);
    ScoreTimes(before, after, n, o);
    AdmissibleIff(e, before, after, anchored);
    forall f | f in m && Share(e, f) ensures f.newId == n && f.oldId == o && f == e {
      AdmissibleIff(f, before, after, anchored);
      MembersThere(after, f.newId);
      ScoreOf(f, before, after, anchored);
    }
    ChosenIff(before, after, anchored, e);
    if n in UsedNew(m) {
      var i :| 0 <= i < |m| && m[i].newId == n;
      assert m[i] in m;
    } else if e in m {
      InUsedNew(m, e);
      assert false;
    }
  }

  lemma InUsedNew(m: seq<Edge>, e: Edge)
    requires e in m
    ensures e.newId in UsedNew(m)
  {
  }

  lemma MembersThere(a: Assignment, c: int)
    requires c in Keys(a)
    ensures Members(a, c) != {}
  {
    KeysAreLabels(a);
  }

  lemma ScoreTimes(before: Assignment, after: Assignment, n: int, o: int)
    requires n in Keys(after)
    ensures var x, y := Members(after, n), Members(before, o); |x + y| > 0 && Score(before, after, n, o) * |x + y| as real == |x * y| as real
  {
    hide Keys, Members;
    MembersThere(after, n);
    var x, y := Members(after, n), Members(before, o);
    NotEmpty(x, y);
    QuotientIs(|x * y| as real, |x + y| as real, Score(before, after, n, o));
  }

  lemma ScoreOf(f: Edge, before: Assignment, after: Assignment, anchored: set<int>)
    requires Admissible(f, before, after, anchored)
    ensures f.score == Score(before, after, f.newId, f.oldId) && f.newId in Keys(after) && f.oldId in Keys(before)
  {
  }

  // ----- ids -----

  ghost predicate Gives(mapping: map<int, int>, after: Assignment, id: int) { exists n :: n in Keys(after) && n in mapping && mapping[n] == id }

  /** Clusters matched to no old one get, without gaps, the ids from the first one above everything in sight. */
  lemma {:induction false} FormedIds(mapping: map<int, int>, events: seq<Event>, lineage: seq<Lineage>,
                                     before: Assignment, after: Assignment, anchored: set<int>, reserved: set<int>) returns (next: int, k: nat)
    requires before != [] && IsResult(mapping, events, lineage, before, after, anchored, reserved)
    ensures forall x :: x in Keys(before) || x in Keys(after) || x in reserved ==> x < next
    ensures next == 0 || next - 1 in Keys(before) || next - 1 in Keys(after) || next - 1 in reserved
    ensures forall n :: n in Keys(after) && n in mapping && mapping[n] !in Keys(before) ==> next <= mapping[n] < next + k
    ensures forall id :: next <= id < next + k ==> Gives(mapping, after, id) && id !in Keys(before)
  {
    hide Keys, Chosen, FinalMapping, FinalEvents, IsLineage, Rest, WithFormed, MappingOf;
    next :| IsLaterRun(mapping, events, lineage, before, after, anchored, reserved, next);
    assert forall x :: x in Known(before, after, reserved) <==> x in Keys(before) || x in Keys(after) || x in reserved;
    var m := Chosen(before, after, anchored);
    var formed := Rest(Keys(after), UsedNew(m));
    k := |formed|;
    KeysAreLabels(after);
    RestFacts(Keys(after), UsedNew(m));
    forall id | next <= id < next + k ensures Gives(mapping, after, id) && id !in Keys(before) {
      FormedAt(before, after, anchored, next, id - next);
      var n := formed[id - next];
      assert n in formed && n in mapping && mapping[n] == id;
    }
    forall n | n in Keys(after) && n in mapping && mapping[n] !in Keys(before) ensures next <= mapping[n] < next + k {
      IdsAreOldOrFresh(before, after, anchored, reserved, next, n);
      assert n in formed;
      var i :| 0 <= i < |formed| && formed[i] == n;
      FormedAt(before, after, anchored, next, i);
    }
  }

  lemma FormedAt(before: Assignment, after: Assignment, anchored: set<int>, next: int, i: nat)
    requires i < |Rest(Keys(after), UsedNew(Chosen(before, after, anchored)))|
    ensures var f, formed := FinalMapping(before, after, anchored, next), Rest(Keys(after), UsedNew(Chosen(before, after, anchored)));
      formed[i] in f && f[formed[i]] == next + i
  {
    hide Keys, Chosen, Rest, WithFormed, MappingOf;
    var m := Chosen(before, after, anchored);
    KeysAreLabels(after);
    RestFacts(Keys(after), UsedNew(m));
    WithFormedAt(MappingOf(m), Rest(Keys(after), UsedNew(m)), next, i);
  }

  /** `n` comes before `n'`. */
  ghost predicate Precedes(keys: seq<int>, n: int, n': int) { exists x, y :: 0 <= x < y < |keys| && keys[x] == n && keys[y] == n' }

  lemma PrecedesLonger(keys: seq<int>, more: seq<int>, n: int, n': int)
    requires Precedes(keys, n, n') || (n in keys && n' in more)
    ensures Precedes(keys + more, n, n')
  {
    var all := keys + more;
    if Precedes(keys, n, n') {
      var x, y :| 0 <= x < y < |keys| && keys[x] == n && keys[y] == n';
      assert all[x] == n && all[y] == n';
    } else {
      var x :| 0 <= x < |keys| && keys[x] == n;
      var y :| 0 <= y < |more| && more[y] == n';
      assert all[x] == n && all[|keys| + y] == n';
    }
  }

  /** A label that has a point before every point of another precedes it. */
  lemma {:induction false} FirstSeenFirst(a: Assignment, i: nat, n': int)
    requires i < |a| && a[i].1 >= 0 && a[i].1 != n' && n' in Keys(a) && forall j :: 0 <= j < i ==> a[j].1 != n'
    ensures Precedes(Keys(a), a[i].1, n')
  {
    var b, e := a[..|a| - 1], a[|a| - 1];
    assert a == b + [e];
    KeysAreLabels(b);
    if i < |b| {
      assert b[i].0 in Members(b, a[i].1);
      if n' in Keys(b) {
        FirstSeenFirst(b, i, n');
        PrecedesLonger(Keys(b), Keys(a)[|Keys(b)|..], a[i].1, n');
      } else {
        PrecedesLonger(Keys(b), [n'], a[i].1, n');
      }
      assert Keys(a) == Keys(b) + Keys(a)[|Keys(b)|..];
    } else {
      NotAKey(b, n');
    }
  }

  lemma {:induction false} NotAKey(a: Assignment, c: int)
    requires forall j :: 0 <= j < |a| ==> a[j].1 != c
    ensures c !in Keys(a)
  {
    KeysAreLabels(a);
  }

  lemma {:induction false} RestKeepsOrder(keys: seq<int>, used: set<int>, n: int, n': int)
    requires Precedes(keys, n, n') && n !in used && n' !in used
    ensures Precedes(Rest(keys, used), n, n')
  {
    var front, k := keys[..|keys| - 1], keys[|keys| - 1];
    assert keys == front + [k];
    var x, y :| 0 <= x < y < |keys| && keys[x] == n && keys[y] == n';
    if y < |front| {
      assert front[x] == n && front[y] == n';
      RestKeepsOrder(front, used, n, n');
      PrecedesLonger(Rest(front, used), if k in used then [] else [k], n, n');
    } else {
      assert front[x] == n;
      RestFacts(front, used);
      PrecedesLonger(Rest(front, used), [k], n, n');
    }
  }

  /** And they get them in the order in which their first points come. */
  lemma {:induction false} FormedInOrder(mapping: map<int, int>, events: seq<Event>, lineage: seq<Lineage>,
                                         before: Assignment, after: Assignment, anchored: set<int>, reserved: set<int>, i: nat, n': int)
    requires before != [] && IsResult(mapping, events, lineage, before, after, anchored, reserved)
    requires i < |after| && after[i].1 >= 0 && after[i].1 != n' && n' in Keys(after) && forall j :: 0 <= j < i ==> after[j].1 != n'
    ensures var n := after[i].1;
      n in mapping && n' in mapping && (mapping[n] !in Keys(before) && mapping[n'] !in Keys(before) ==> mapping[n] < mapping[n'])
  {
    hide Keys, Members, Chosen, FinalMapping, FinalEvents, IsLineage, Rest, WithFormed, MappingOf, Known, IsHighWater;
    var next :| IsLaterRun(mapping, events, lineage, before, after, anchored, reserved, next);
    var m, n := Chosen(before, after, anchored), after[i].1;
    var formed := Rest(Keys(after), UsedNew(m));
    FirstSeenFirst(after, i, n');
    PrecedesIsIn(Keys(after), n, n');
    IdsAreOldOrFresh(before, after, anchored, reserved, next, n);
    IdsAreOldOrFresh(before, after, anchored, reserved, next, n');
    if n !in UsedNew(m) && n' !in UsedNew(m) {
      RestKeepsOrder(Keys(after), UsedNew(m), n, n');
      var x, y :| 0 <= x < y < |formed| && formed[x] == n && formed[y] == n';
      FormedAt(before, after, anchored, next, x);
      FormedAt(before, after, anchored, next, y);
    }
  }

  lemma PrecedesIsIn(keys: seq<int>, n: int, n': int)
    requires Precedes(keys, n, n')
    ensures n in keys && n' in keys
  {
  }

  /** On a first run a label's id is the least one from the label on that is neither reserved nor the id
    * of a smaller label; so where nothing is reserved every label keeps itself. */
  lemma {:induction false} FirstRunTakesLeast(mapping: map<int, int>, events: seq<Event>, after: Assignment, reserved: set<int>, c: int)
    requires IsFirstRun(mapping, events, after, reserved) && c in LabelsIn(after) && c != -1
    ensures c in mapping && mapping[c] >= c && mapping[c] !in reserved
    ensures forall x :: c <= x < mapping[c] && x !in reserved ==> exists d :: d in LabelsIn(after) && d != -1 && d < c && d in mapping && mapping[d] == x
  {
    hide LabelsIn, UniqueLabels, Members, FirstLabels;
    var labels := UniqueLabels(LabelsIn(after));
    UniqueLabelsSorted(LabelsIn(after));
    var i :| 0 <= i < |labels| && labels[i] == c;
    assert IsFirstFree(mapping[labels[i]], labels[i], reserved + Given(mapping, labels, i));
    forall x | c <= x < mapping[c] && x !in reserved ensures exists d :: d in LabelsIn(after) && d != -1 && d < c && d in mapping && mapping[d] == x {
      assert x in Given(mapping, labels, i);
      var j :| 0 <= j < i && labels[j] in mapping && mapping[labels[j]] == x;
      assert labels[j] in labels;
    }
  }

  // ----- events -----

  /** The event of new cluster `n` under id `id`: continued from the old cluster of that id, or formed. */
  ghost predicate TellsOf(v: Event, n: int, id: int, before: Assignment, after: Assignment) {
    var x, y := Members(after, n), Members(before, id);
    && v.cluster == id && v.points == |x|
    && if id in Keys(before)
       then v.kind == (if |x| > |y| then Grew else Stable) && v.oldClusters == [id] && v.delta == |x| - |y|
         && v.score.Some? && v.score.value * |x + y| as real == |x * y| as real
       else v.kind == Formed && v.oldClusters == [] && v.delta == |x| && v.score == None
  }

  lemma {:induction false} MatchEventAt(m: seq<Edge>, before: Assignment, after: Assignment, i: nat)
    requires i < |m|
    ensures |MatchEvents(m, before, after)| == |m| && MatchEvents(m, before, after)[i] == MatchEvent(m[i], before, after)
  {
    hide Members, MatchEvent;
    if i < |m| - 1 {
      MatchEventAt(m[..|m| - 1], before, after, i);
    } else if i > 0 {
      MatchEventAt(m[..|m| - 1], before, after, i - 1);
    }
  }

  lemma {:induction false} FormedEventAt(formed: seq<int>, next: int, after: Assignment, i: nat)
    requires i < |formed|
    ensures |FormedEvents(formed, next, after)| == |formed|
    ensures var size := |Members(after, formed[i])|; FormedEvents(formed, next, after)[i] == Event(Formed, next + i, [], None, size, size)
  {
    hide Members;
    if i < |formed| - 1 {
      FormedEventAt(formed[..|formed| - 1], next, after, i);
    } else if i > 0 {
      FormedEventAt(formed[..|formed| - 1], next, after, i - 1);
    }
  }

  lemma {:induction false} EventLengths(m: seq<Edge>, formed: seq<int>, gone: seq<int>, next: int, before: Assignment, after: Assignment)
    ensures |MatchEvents(m, before, after)| == |m| && |FormedEvents(formed, next, after)| == |formed| && |DissolvedEvents(gone, before)| == |gone|
    decreases |m| + |formed| + |gone|
  {
    hide Members, MatchEvent;
    if m != [] {
      EventLengths(m[..|m| - 1], formed, gone, next, before, after);
    } else if formed != [] {
      EventLengths(m, formed[..|formed| - 1], gone, next, before, after);
    } else if gone != [] {
      EventLengths(m, formed, gone[..|gone| - 1], next, before, after);
    }
  }

  lemma {:induction false} DissolvedEventAt(gone: seq<int>, before: Assignment, i: nat)
    requires i < |gone|
    ensures |DissolvedEvents(gone, before)| == |gone|
    ensures DissolvedEvents(gone, before)[i] == Event(Dissolved, gone[i], [gone[i]], None, 0, -|Members(before, gone[i])|)
  {
    hide Members;
    if i < |gone| - 1 {
      DissolvedEventAt(gone[..|gone| - 1], before, i);
    } else if i > 0 {
      DissolvedEventAt(gone[..|gone| - 1], before, i - 1);
    }
  }

  /** The event of a matched cluster. */
  lemma MatchTells(e: Edge, before: Assignment, after: Assignment, anchored: set<int>)
    requires Admissible(e, before, after, anchored)
    ensures TellsOf(MatchEvent(e, before, after), e.newId, e.oldId, before, after)
  {
    hide Keys, Members, Score, Threshold;
    ScoreTimes(before, after, e.newId, e.oldId);
  }

  /** Every new cluster has an event that tells its id, its size, how it changed, and from what. */
  lemma {:induction false} EventOfNew(mapping: map<int, int>, events: seq<Event>, lineage: seq<Lineage>,
                                      before: Assignment, after: Assignment, anchored: set<int>, reserved: set<int>, n: int) returns (i: nat)
    requires IsResult(mapping, events, lineage, before, after, anchored, reserved) && n in Keys(after)
    ensures n in mapping && i < |events| && TellsOf(events[i], n, mapping[n], before, after)
  {
    hide Keys, Members, IsFirstRun, IsLaterRun;
    if before == [] {
      i := FirstEvent(mapping, events, after, reserved, n);
      NothingBefore();
    } else {
      var next :| IsLaterRun(mapping, events, lineage, before, after, anchored, reserved, next);
      i := LaterEvent(mapping, events, lineage, before, after, anchored, reserved, next, n);
    }
  }

  lemma NothingBefore()
    ensures Keys([]) == []
  {
  }

  lemma {:induction false} FirstEvent(mapping: map<int, int>, events: seq<Event>, after: Assignment, reserved: set<int>, n: int) returns (i: nat)
    requires IsFirstRun(mapping, events, after, reserved) && n in Keys(after)
    ensures n in mapping && i < |events| && events[i] == Event(Formed, mapping[n], [], None, |Members(after, n)|, |Members(after, n)|)
  {
    hide Keys, UniqueLabels, IsFirstRunMapping;
    KeysAreLabels(after);
    UniqueLabelsSorted(LabelsIn(after));
    var labels := UniqueLabels(LabelsIn(after));
    var p :| p in Members(after, n);
    var a :| 0 <= a < |after| && after[a].1 == n;
    assert LabelsIn(after)[a] == n;
    assert n in labels;
    i :| 0 <= i < |labels| && labels[i] == n;
  }

  lemma {:induction false} LaterEvent(mapping: map<int, int>, events: seq<Event>, lineage: seq<Lineage>,
                                      before: Assignment, after: Assignment, anchored: set<int>, reserved: set<int>, next: int, n: int) returns (i: nat)
    requires IsLaterRun(mapping, events, lineage, before, after, anchored, reserved, next) && n in Keys(after)
    ensures n in mapping && i < |events| && TellsOf(events[i], n, mapping[n], before, after)
  {
    hide Keys, Members, Chosen, FinalMapping, IsLineage, Known, IsHighWater, Rest, MatchEvents, FormedEvents, DissolvedEvents, TellsOf, MatchEvent, Admissible;
    var m := Chosen(before, after, anchored);
    var formed, gone := Rest(Keys(after), UsedNew(m)), Gone(before, after, anchored);
    EventLengths(m, formed, gone, next, before, after);
    IdsAreOldOrFresh(before, after, anchored, reserved, next, n);
    MappedOrFormed(before, after, anchored, next);
    if n in UsedNew(m) {
      i :| 0 <= i < |m| && m[i].newId == n;
      assert m[i] in m;
      ChosenFacts(before, after, anchored);
      MatchEventAt(m, before, after, i);
      MatchTells(m[i], before, after, anchored);
    } else {
      RestFacts(Keys(after), UsedNew(m));
      var j: nat :| j < |formed| && formed[j] == n;
      FormedEventAt(formed, next, after, j);
      FormedAt(before, after, anchored, next, j);
      OldIsKnown(before, after, reserved);
      i := |m| + j;
      FormedTells(events[i], n, mapping[n], before, after);
    }
  }

  lemma FormedTells(v: Event, n: int, id: int, before: Assignment, after: Assignment)
    requires v == Event(Formed, id, [], None, |Members(after, n)|, |Members(after, n)|) && id !in Keys(before)
    ensures TellsOf(v, n, id, before, after)
  {
  }

  lemma {:induction false} MatchedIsGiven(before: Assignment, after: Assignment, anchored: set<int>, next: int, o: int)
    ensures var f := FinalMapping(before, after, anchored, next);
      o in UsedOld(Chosen(before, after, anchored)) ==> exists n :: n in Keys(after) && n in f && f[n] == o
  {
    hide Keys, Chosen, FinalMapping;
    var m := Chosen(before, after, anchored);
    MappedOrFormed(before, after, anchored, next);
    if o in UsedOld(m) {
      var a :| 0 <= a < |m| && m[a].oldId == o;
      assert m[a] in m;
      ChosenIsNew(before, after, anchored, m[a]);
    }
  }

  /** Every old cluster whose id goes to no new one has its 'dissolved' event. */
  lemma {:induction false} EventOfDissolved(mapping: map<int, int>, events: seq<Event>, lineage: seq<Lineage>,
                                            before: Assignment, after: Assignment, anchored: set<int>, reserved: set<int>, o: int) returns (i: nat)
    requires before != [] && IsResult(mapping, events, lineage, before, after, anchored, reserved)
    requires o in Keys(before) && forall n :: n in Keys(after) && n in mapping ==> mapping[n] != o
    ensures i < |events| && events[i] == Event(Dissolved, o, [o], None, 0, -|Members(before, o)|)
  {
    hide Keys, Members, Chosen, FinalMapping, IsLineage, Known, IsHighWater, Rest, MatchEvents, FormedEvents, DissolvedEvents, Admissible;
    var next :| IsLaterRun(mapping, events, lineage, before, after, anchored, reserved, next);
    var m := Chosen(before, after, anchored);
    var formed, gone := Rest(Keys(after), UsedNew(m)), Gone(before, after, anchored);
    EventLengths(m, formed, gone, next, before, after);
    MappedOrFormed(before, after, anchored, next);
    ChosenFacts(before, after, anchored);
    RestFacts(Keys(before), UsedOld(m));
    MatchedIsGiven(before, after, anchored, next, o);
    var j: nat :| j < |gone| && gone[j] == o;
    DissolvedEventAt(gone, before, j);
    i := |m| + |formed| + j;
  }

  lemma {:induction false} RestLength(keys: seq<int>, used: set<int>)
    requires Distinct(keys) && forall u :: u in used ==> u in keys
    ensures |Rest(keys, used)| + |used| == |keys|
  {
    if keys == [] {
      forall u ensures u !in used { assert u in used ==> u in keys; }
      assert used == {};
    } else {
      var front, k := keys[..|keys| - 1], keys[|keys| - 1];
      assert keys == front + [k] && k !in front;
      RestLength(front, used - {k});
      SameRest(front, used, k);
    }
  }

  lemma {:induction false} SameRest(keys: seq<int>, used: set<int>, k: int)
    requires k !in keys
    ensures Rest(keys, used - {k}) == Rest(keys, used)
  {
    if keys != [] {
      assert keys == keys[..|keys| - 1] + [keys[|keys| - 1]];
      SameRest(keys[..|keys| - 1], used, k);
    }
  }

  lemma {:induction false} UsedNewSize(m: seq<Edge>)
    requires IsMatching(m)
    ensures |UsedNew(m)| == |m|
  {
    if m == [] {
      NothingUsed();
    } else {
      var front, e := m[..|m| - 1], m[|m| - 1];
      assert m == front + [e];
      UsedNewSize(front);
      UsedGrows(front, e);
      NotYetUsed(front, e);
    }
  }

  /** There are no other events: one per new cluster and one per old cluster that is dissolved. */
  lemma {:induction false} EventCount(mapping: map<int, int>, events: seq<Event>, lineage: seq<Lineage>,
                                      before: Assignment, after: Assignment, anchored: set<int>, reserved: set<int>)
    requires before != [] && IsResult(mapping, events, lineage, before, after, anchored, reserved)
    ensures |events| == |Keys(after)| + |Gone(before, after, anchored)|
    ensures forall o :: o in Gone(before, after, anchored) <==> o in Keys(before) && forall n :: n in Keys(after) && n in mapping ==> mapping[n] != o
  {
    hide Keys, Members, Chosen, FinalMapping, IsLineage, Known, IsHighWater, Rest, MatchEvents, FormedEvents, DissolvedEvents, Admissible;
    var next :| IsLaterRun(mapping, events, lineage, before, after, anchored, reserved, next);
    var m := Chosen(before, after, anchored);
    EventLengths(m, Rest(Keys(after), UsedNew(m)), Gone(before, after, anchored), next, before, after);
    ChosenFacts(before, after, anchored);
    UsedNewSize(m);
    KeysAreLabels(after);
    forall u | u in UsedNew(m) ensures u in Keys(after) {
      var i :| 0 <= i < |m| && m[i].newId == u;
      assert m[i] in m;
      ChosenIsNew(before, after, anchored, m[i]);
    }
    RestLength(Keys(after), UsedNew(m));
    RestFacts(Keys(before), UsedOld(m));
    MappedOrFormed(before, after, anchored, next);
    OldIsKnown(before, after, reserved);
    forall o | o in Keys(before) ensures o in UsedOld(m) <==> exists n :: n in Keys(after) && n in mapping && mapping[n] == o {
      MatchedIsGiven(before, after, anchored, next, o);
      if n :| n in Keys(after) && n in mapping && mapping[n] == o {
        IdsAreOldOrFresh(before, after, anchored, reserved, next, n);
        var a :| 0 <= a < |m| && m[a].newId == n;
        assert m[a] in m && m[a].oldId in UsedOld(m);
      }
    }
  }

  // ----- lineage -----

  /** The ids the points of `x` ended under. */
  function Landings(x: set<Pid>, after: Assignment, mapping: map<int, int>): set<int> {
    set n | n in Keys(after) && n in mapping && x * Members(after, n) != {} :: mapping[n]
  }

  /** The lineage rows of a dissolved cluster: one for each of the ids its points ended under, or for
    * three of them that no other exceeds, each with the points it took and their share, best first. */
  lemma {:induction false} RowsOfDissolved(mapping: map<int, int>, events: seq<Event>, lineage: seq<Lineage>,
                                           before: Assignment, after: Assignment, anchored: set<int>, reserved: set<int>, o: int) returns (lo: nat, hi: nat)
    requires IsDict(after) && before != [] && o in Gone(before, after, anchored)
    requires IsResult(mapping, events, lineage, before, after, anchored, reserved)
    ensures lo <= hi <= |lineage| && forall i :: 0 <= i < |lineage| ==> (lineage[i].oldId == o <==> lo <= i < hi)
    ensures var x := Members(before, o); var k := |Landings(x, after, mapping)|;
      && hi - lo == (if k <= 3 then k else 3)
      && (forall i :: lo <= i < hi ==> lineage[i].strength * |x| as real == lineage[i].count as real && (lineage[i].dominant <==> i == lo))
      && (forall i, n :: lo <= i < hi && n in Keys(after) && n in mapping && lineage[i].newId == mapping[n] ==> lineage[i].count == |x * Members(after, n)|)
      && (forall i :: lo <= i < hi ==> lineage[i].newId in Landings(x, after, mapping))
      && (forall i, j :: lo <= i < j < hi ==> lineage[i].newId != lineage[j].newId && lineage[i].count >= lineage[j].count)
      && (forall i, n :: lo <= i < hi && n in Keys(after) && n in mapping && (forall j :: lo <= j < hi ==> lineage[j].newId != mapping[n]) ==>
            |x * Members(after, n)| <= lineage[i].count)
  {
    hide FinalMapping, FinalEvents, Keys, Known, IsHighWater, Members, IsLineage, Gone, Arrivals, Successors, IsTopThree, Landings;
    var next :| IsLaterRun(mapping, events, lineage, before, after, anchored, reserved, next);
    GoneIsDistinct(before, after, anchored);
    lo, hi := BlockOfDissolved(lineage, Gone(before, after, anchored), before, after, mapping, o);
    var x, rows := Members(before, o), lineage[lo..hi];
    assert forall d :: lo <= d < hi ==> lineage[d] == rows[d - lo];
    LandingsAreSuccessors(mapping, before, after, anchored, reserved, next, o);
    forall n | n in Keys(after) ensures n in mapping && Arrivals(x, mapping[n], after, mapping) == x * Members(after, n) {
      ArrivalsAreShared(before, after, anchored, reserved, next, o, n);
    }
    TopThreeRows(rows, o, x, after, mapping);
    forall i, n | lo <= i < hi && n in Keys(after) && n in mapping && (forall j :: lo <= j < hi ==> lineage[j].newId != mapping[n])
      ensures |x * Members(after, n)| <= lineage[i].count
    {
      NotListed(rows, o, x, after, mapping, mapping[n], i - lo);
    }
  }

  /** What a top-three block says of itself. */
  lemma TopThreeRows(rows: seq<Lineage>, o: int, x: set<Pid>, after: Assignment, mapping: map<int, int>)
    requires IsTopThree(rows, o, x, after, mapping)
    ensures |rows| == (if |Successors(x, after, mapping)| <= 3 then |Successors(x, after, mapping)| else 3)
    ensures forall i :: 0 <= i < |rows| ==>
      && rows[i].newId in Successors(x, after, mapping) && rows[i].count == |Arrivals(x, rows[i].newId, after, mapping)|
      && rows[i].strength * |x| as real == rows[i].count as real && (rows[i].dominant <==> i == 0)
    ensures forall i, j :: 0 <= i < j < |rows| ==> rows[i].newId != rows[j].newId && rows[i].count >= rows[j].count
  {
    hide Arrivals, Successors;
    assert forall i :: 0 <= i < |rows| ==> IsSuccessorRow(rows[i], o, x, after, mapping);
  }

  lemma NotListed(rows: seq<Lineage>, o: int, x: set<Pid>, after: Assignment, mapping: map<int, int>, s: int, i: nat)
    requires IsTopThree(rows, o, x, after, mapping) && i < |rows| && forall j :: 0 <= j < |rows| ==> rows[j].newId != s
    ensures |Arrivals(x, s, after, mapping)| <= rows[i].count
  {
    hide Arrivals, Successors;
    if s !in Successors(x, after, mapping) { ArrivalIsSuccessor(x, s, after, mapping); }
  }

  lemma {:induction false} LandingsAreSuccessors(mapping: map<int, int>, before: Assignment, after: Assignment, anchored: set<int>, reserved: set<int>, next: int, o: int)
    requires IsDict(after) && IsHighWater(next, Known(before, after, reserved)) && mapping == FinalMapping(before, after, anchored, next)
    ensures Landings(Members(before, o), after, mapping) == Successors(Members(before, o), after, mapping)
  {
    hide FinalMapping, Keys, Known, IsHighWater, Members, Arrivals, Successors;
    var x := Members(before, o);
    SuccessorsAreNew(mapping, x, before, after, anchored, reserved, next);
    forall n | n in Keys(after) && n in mapping && x * Members(after, n) != {} ensures mapping[n] in Successors(x, after, mapping) {
      ArrivalsAreShared(before, after, anchored, reserved, next, o, n);
      ArrivalIsSuccessor(x, mapping[n], after, mapping);
    }
    forall s ensures s in Landings(x, after, mapping) <==> s in Successors(x, after, mapping) {}
  }
}
