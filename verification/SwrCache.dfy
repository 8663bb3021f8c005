/** The stale-while-revalidate caches of the Mindscape response, over every interleaving. */
module SwrCache {
  import opened Wrappers

  const TTL_MS: int := 5 * 60 * 1000

  type User = string

  datatype Entry<V> = Entry(value: V, at: int)

  datatype Stage = Running | Settled | Finished

  /** A compute: for whom, the generation when it was requested, and how far it got. */
  datatype Compute = Compute(user: User, gen: nat, stage: Stage)

  /** `_cache`, `_inFlight` (a user's compute, by number), `_gen`, and all computes so far. */
  datatype Cache<V> = Cache(entries: map<User, Entry<V>>, inFlight: map<User, nat>, gen: nat, computes: seq<Compute>)

  datatype Event<V> =
    | Get(user: User, now: int)
    | Settle(id: nat, value: V, now: int)   // computeFn resolved; the `then` callback runs
    | Fail(id: nat)                         // computeFn rejected
    | Finish(id: nat)                       // the `finally` callback runs
    | Bust(who: Option<User>)               // None: all users

  datatype Reply<V> = Value(value: V) | Await(id: nat)

  function Empty<V>(): Cache<V> { Cache(map[], map[], 0, []) }

  predicate Warm<V>(c: Cache<V>, user: User, now: int) { user in c.entries && now - c.entries[user].at < TTL_MS }

  function AfterGet<V>(c: Cache<V>, user: User, now: int): Cache<V> {
    if Warm(c, user, now) || user in c.inFlight then c
    else c.(inFlight := c.inFlight[user := |c.computes|], computes := c.computes + [Compute(user, c.gen, Running)])
  }

  function AfterBust<V>(c: Cache<V>, who: Option<User>): Cache<V> {
    c.(gen := c.gen + 1, entries := match who case None => map[] case Some(u) => c.entries - {u})
  }

  predicate Enabled<V>(c: Cache<V>, e: Event<V>) {
    match e
    case Settle(id, _, _) => id < |c.computes| && c.computes[id].stage == Running
    case Fail(id) => id < |c.computes| && c.computes[id].stage == Running
    case Finish(id) => id < |c.computes| && c.computes[id].stage == Settled
    case _ => true
  }

  function Next<V>(c: Cache<V>, e: Event<V>): Cache<V>
    requires Enabled(c, e)
  {
    match e
    case Get(user, now) => AfterGet(c, user, now)
    case Settle(id, value, now) =>
      var k := c.computes[id];
      c.(entries := if k.gen == c.gen then c.entries[k.user := Entry(value, now)] else c.entries,
         computes := c.computes[id := k.(stage := Settled)])
    case Fail(id) => c.(computes := c.computes[id := c.computes[id].(stage := Settled)])
    case Finish(id) =>
      c.(inFlight := c.inFlight - {c.computes[id].user}, computes := c.computes[id := c.computes[id].(stage := Finished)])
    case Bust(who) => AfterBust(c, who)
  }

  /** One cache, as the source updates it. */
  class SwrStore<V> {
    var entries: map<User, Entry<V>>
    var inFlight: map<User, nat>
    var gen: nat
    var computes: seq<Compute>

    ghost function Model(): Cache<V>
      reads this
    {
      Cache(entries, inFlight, gen, computes)
    }

    constructor ()
      ensures Model() == Empty()
    {
      entries, inFlight, gen, computes := map[], map[], 0, [];
    }

    /** `get` up to its return: a value at once, or the compute to wait for. */
    method Get(user: User, now: int) returns (reply: Reply<V>)
      modifies this`inFlight, this`computes
      ensures Model() == AfterGet(old(Model()), user, now)
      ensures |computes| > |old(computes)| <==>
        user !in old(inFlight) && (user !in old(entries) || now - old(entries)[user].at >= 300000)
      ensures user in entries ==> reply == Value(entries[user].value)
      ensures user !in entries ==> user in inFlight && reply == Await(inFlight[user])
    {
      if user in entries && now - entries[user].at < TTL_MS { return Value(entries[user].value); }
      if user !in inFlight {
        var genAtStart := gen;
        inFlight := inFlight[user := |computes|];
        computes := computes + [Compute(user, genAtStart, Running)];
      }
      if user in entries { return Value(entries[user].value); }
      reply := Await(inFlight[user]);
    }

    method Settle(id: nat, value: V, now: int)
      requires Enabled(Model(), Event.Settle(id, value, now))
      modifies this`entries, this`computes
      ensures Model() == Next(old(Model()), Event.Settle(id, value, now))
    {
      if computes[id].gen == gen { entries := entries[computes[id].user := Entry(value, now)]; }
      computes := computes[id := computes[id].(stage := Settled)];
    }

    method Fail(id: nat)
      requires Enabled(Model(), Event.Fail(id))
      modifies this`computes
      ensures Model() == Next(old(Model()), Event.Fail(id))
    {
      computes := computes[id := computes[id].(stage := Settled)];
    }

    method Finish(id: nat)
      requires Enabled(Model(), Event.Finish(id))
      modifies this`inFlight, this`computes
      ensures Model() == Next(old(Model()), Event.Finish(id))
    {
      inFlight := inFlight - {computes[id].user};
      computes := computes[id := computes[id].(stage := Finished)];
    }

    method Bust(who: Option<User>)
      modifies this`gen, this`entries
      ensures Model() == AfterBust(old(Model()), who)
    {
      gen := gen + 1;
      if who.None? { entries := map[]; } else { entries := entries - {who.value}; }
    }
  }

  /** The two caches and the two ways to invalidate them. */
  class Mindscape<V> {
    const points: SwrStore<V>
    const full: SwrStore<V>

    constructor ()
      ensures fresh(points) && fresh(full) && points != full && points.Model() == Empty() && full.Model() == Empty()
    {
      points := new SwrStore();
      full := new SwrStore();
    }

    method BustMindscape(who: Option<User>)
      requires points != full
      modifies full
      ensures full.Model() == AfterBust(old(full.Model()), who)
    {
      full.Bust(who);
    }

    method BustMindscapePoints(who: Option<User>)
      requires points != full
      modifies points, full
      ensures points.Model() == AfterBust(old(points.Model()), who) && full.Model() == AfterBust(old(full.Model()), who)
    {
      points.Bust(who);
      full.Bust(who);
    }
  }

  // ----- every interleaving -----

  ghost predicate Possible<V>(events: seq<Event<V>>)
    decreases |events|, 0
  {
    events == [] ||
    (var front := events[..|events| - 1]; Possible(front) && Enabled(After(front), events[|events| - 1]))
  }

  ghost function After<V>(events: seq<Event<V>>): Cache<V>
    requires Possible(events)
    decreases |events|, 1
  {
    if events == [] then Empty() else Next(After(events[..|events| - 1]), events[|events| - 1])
  }

  /** Event `b` is the `get` that requests compute `id`, for `user`. */
  ghost predicate Requests<V>(events: seq<Event<V>>, b: nat, id: nat, user: User) {
    && b < |events| && events[b].Get? && events[b].user == user
    && Possible(events[..b]) && Possible(events[..b + 1])
    && id == |After(events[..b]).computes| && |After(events[..b + 1]).computes| == id + 1
  }

  predicate Affects<V>(e: Event<V>, user: User) { e.Bust? && (e.who.None? || e.who.value == user) }

  ghost predicate NoBustSince<V>(events: seq<Event<V>>, b: nat) { forall i :: b < i < |events| ==> !events[i].Bust? }

  ghost predicate UnaffectedSince<V>(events: seq<Event<V>>, b: nat, user: User) { forall i :: b < i < |events| ==> !Affects(events[i], user) }

  lemma RequestsOfLonger<V>(events: seq<Event<V>>, e: Event<V>, b: nat, id: nat, user: User)
    requires Requests(events, b, id, user)
    ensures Requests(events + [e], b, id, user)
  {
    var all := events + [e];
    assert all[..b] == events[..b] && all[..b + 1] == events[..b + 1];
  }

  /** A step keeps the computes that are there, for whom and at which generation they were requested;
    * a bust moves the generation, and only a `get` adds a compute. */
  lemma NextComputes<V>(c: Cache<V>, e: Event<V>)
    requires Enabled(c, e)
    ensures var d := Next(c, e);
      && d.gen == c.gen + (if e.Bust? then 1 else 0)
      && |c.computes| <= |d.computes| <= |c.computes| + (if e.Get? then 1 else 0)
      && (forall id :: 0 <= id < |c.computes| ==> d.computes[id].user == c.computes[id].user && d.computes[id].gen == c.computes[id].gen)
      && (|d.computes| > |c.computes| ==> d.computes[|c.computes|].user == e.user && d.computes[|c.computes|].gen == c.gen)
  {
  }

  /** Every compute was requested by some `get`, and its generation is the current one exactly if no
    * bust came since. */
  lemma {:induction false} ComputeOrigin<V>(events: seq<Event<V>>, id: nat) returns (b: nat)
    requires Possible(events) && id < |After(events).computes|
    ensures Requests(events, b, id, After(events).computes[id].user)
    ensures After(events).computes[id].gen <= After(events).gen
    ensures After(events).computes[id].gen == After(events).gen <==> NoBustSince(events, b)
  {
    hide Next, Enabled;
    var k := |events| - 1;
    var front, e := events[..k], events[k];
    assert events == front + [e];
    NextComputes(After(front), e);
    if id < |After(front).computes| {
      b := ComputeOrigin(front, id);
      RequestsOfLonger(front, e, b, id, After(front).computes[id].user);
      assert NoBustSince(events, b) <==> NoBustSince(front, b) && !e.Bust? by {
        assert events[k] == e && forall i :: b < i < k ==> events[i] == front[i];
      }
    } else {
      b := k;
      assert events[..k + 1] == events;
    }
  }

  /** A cached value was produced by a compute requested after the last bust that affects its user. */
  lemma {:induction false} CachedIsFresh<V>(events: seq<Event<V>>, user: User) returns (b: nat, id: nat, c: nat)
    requires Possible(events) && user in After(events).entries
    ensures Requests(events, b, id, user) && b < c < |events|
    ensures events[c] == Settle(id, After(events).entries[user].value, After(events).entries[user].at)
    ensures UnaffectedSince(events, b, user)
  {
    var k := |events| - 1;
    var front, e := events[..k], events[k];
    assert events == front + [e];
    var was := After(front);
    if e.Settle? && was.computes[e.id].user == user && was.computes[e.id].gen == was.gen {
      id, c := e.id, k;
      b := ComputeOrigin(front, id);
      RequestsOfLonger(front, e, b, id, user);
    } else {
      b, id, c := CachedIsFresh(front, user);
      RequestsOfLonger(front, e, b, id, user);
    }
  }

  /** The unfinished computes are exactly the ones `inFlight` names, one per user. */
  ghost predicate OnePerUser<V>(c: Cache<V>) {
    && (forall id: nat :: id < |c.computes| && c.computes[id].stage != Finished ==> Latched(c, id, c.computes[id].user))
    && (forall u :: u in c.inFlight ==> c.inFlight[u] < |c.computes| && c.computes[c.inFlight[u]].user == u && c.computes[c.inFlight[u]].stage != Finished)
  }

  ghost predicate Latched<V>(c: Cache<V>, id: nat, user: User) { user in c.inFlight && c.inFlight[user] == id }

  lemma {:induction false} NextKeepsOnePerUser<V>(c: Cache<V>, e: Event<V>)
    requires OnePerUser(c) && Enabled(c, e)
    ensures OnePerUser(Next(c, e))
  {
    var d := Next(c, e);
    forall id: nat | id < |d.computes| && d.computes[id].stage != Finished ensures Latched(d, id, d.computes[id].user) {
      if id < |c.computes| {
        assert Latched(c, id, c.computes[id].user);
        if e.Finish? { assert Latched(c, e.id, c.computes[e.id].user); }
      }
    }
  }

  /** At most one compute per user is in flight. */
  lemma {:induction false} OneInFlight<V>(events: seq<Event<V>>)
    requires Possible(events)
    ensures OnePerUser(After(events))
  {
    if events != [] {
      var front := events[..|events| - 1];
      OneInFlight(front);
      NextKeepsOnePerUser(After(front), events[|events| - 1]);
    }
  }

  /** What a cold `get` waits for: a compute it starts itself is post-bust; one it joins will be
    * stored, and so is as fresh as anything cached, exactly if its generation is current.  Where all
    * busts concern the caller, as with a single user, that is exactly when it is post-bust. */
  lemma AwaitIsPostBust<V>(events: seq<Event<V>>, user: User, now: int) returns (b: nat, id: nat)
    requires Possible(events) && user !in After(events).entries
    ensures var all := events + [Get(user, now)];
      && Possible(all) && user in After(all).inFlight && After(all).inFlight[user] == id < |After(all).computes| && Requests(all, b, id, user)
      && (user !in After(events).inFlight ==> UnaffectedSince(all, b, user))
      && (After(all).computes[id].gen == After(all).gen <==> NoBustSince(all, b))
      && (NoBustSince(all, b) ==> UnaffectedSince(all, b, user))
      && ((forall i :: 0 <= i < |all| && all[i].Bust? ==> Affects(all[i], user)) ==>
            (UnaffectedSince(all, b, user) <==> After(all).computes[id].gen == After(all).gen))
  {
    var e := Get(user, now);
    var all := events + [e];
    assert all[..|all| - 1] == events && all[|all| - 1] == e;
    OneInFlight(all);
    id := After(all).inFlight[user];
    b := ComputeOrigin(all, id);
    if user !in After(events).inFlight {
      assert id == |After(events).computes|;
      RequestedLast(events, e, b, id, user);
    }
  }

  /** A compute that is not there before the last event was requested by it. */
  lemma RequestedLast<V>(events: seq<Event<V>>, e: Event<V>, b: nat, id: nat, user: User)
    requires Possible(events) && Requests(events + [e], b, id, user) && id == |After(events).computes|
    ensures b == |events|
  {
    var all := events + [e];
    if b < |events| {
      assert all[..b + 1] == events[..b + 1];
      ComputesGrow(events, b + 1);
    }
  }

  lemma {:induction false} ComputesGrow<V>(events: seq<Event<V>>, k: nat)
    requires Possible(events) && k <= |events| && Possible(events[..k])
    ensures |After(events[..k]).computes| <= |After(events).computes|
  {
    if k < |events| {
      var front := events[..|events| - 1];
      assert front[..k] == events[..k];
      ComputesGrow(front, k);
    } else {
      assert events[..k] == events;
    }
  }

  /** What a waiting caller joins may be older than the last bust: the guarantee is about what is
    * stored, not about what is awaited. */
  lemma JoinedComputeCanPredateBust<V>(user: User)
    ensures var events: seq<Event<V>> := [Get(user, 0), Bust(Some(user)), Get(user, 1)];
      && Possible(events) && user !in After(events).entries && user in After(events).inFlight
      && Requests(events, 0, After(events).inFlight[user], user) && Affects(events[1], user)
  {
    var e1: seq<Event<V>> := [Get(user, 0)];
    var e2: seq<Event<V>> := [Get(user, 0), Bust(Some(user))];
    var e3: seq<Event<V>> := [Get(user, 0), Bust(Some(user)), Get(user, 1)];
    assert e1[..|e1| - 1] == [] && e1[..0] == [] && e2[..1] == e1 && e3[..2] == e2 && e3[..1] == e1 && e3[..0] == [];
    assert Possible(e1) by { assert Possible(e1[..|e1| - 1]); }
    assert After(e1) == Next(Empty(), e1[0]);
    assert After(e1).inFlight == map[user := 0];
    assert Possible(e2) && After(e2).inFlight == map[user := 0];
  }

  // ----- the two caches together -----

  datatype PairEvent<V> = OnPoints(e: Event<V>) | OnFull(e: Event<V>) | NarrativeBust(who: Option<User>) | PointsBust(who: Option<User>)

  /** What one of the two caches sees: its own events, the points busts and, for the full one,
    * the narrative busts too. */
  function View<V>(events: seq<PairEvent<V>>, full: bool): seq<Event<V>> {
    if events == [] then [] else View(events[..|events| - 1], full) + Seen(events[|events| - 1], full)
  }

  function Seen<V>(e: PairEvent<V>, full: bool): seq<Event<V>> {
    match e
    case OnPoints(own) => if full then [] else [own]
    case OnFull(own) => if full then [own] else []
    case NarrativeBust(who) => if full then [Bust(who)] else []
    case PointsBust(who) => [Bust(who)]
  }

  ghost predicate PossiblePair<V>(events: seq<PairEvent<V>>) {
    && Possible(View(events, false)) && Possible(View(events, true))
    && forall i :: 0 <= i < |events| && (events[i].OnPoints? || events[i].OnFull?) ==> !events[i].e.Bust?
  }

  /** The event empties the cache for the user. */
  predicate Invalidates<V>(e: PairEvent<V>, user: User, full: bool) {
    (e.PointsBust? || (full && e.NarrativeBust?)) && (e.who.None? || e.who.value == user)
  }

  /** A points bust empties both caches for its users; a narrative bust empties only the full one
    * and leaves the points cache as it is. */
  lemma BustsReachTheirCaches<V>(events: seq<PairEvent<V>>, e: PairEvent<V>, user: User, full: bool)
    requires PossiblePair(events) && PossiblePair(events + [e])
    ensures Invalidates(e, user, full) ==> user !in After(View(events + [e], full)).entries
    ensures e.PointsBust? && (e.who.None? || e.who.value == user) ==>
      user !in After(View(events + [e], false)).entries && user !in After(View(events + [e], true)).entries
    ensures e.NarrativeBust? ==> After(View(events + [e], false)) == After(View(events, false))
  {
    hide After, Possible;
    var all := events + [e];
    assert all[..|all| - 1] == events;
    if e.NarrativeBust? { assert View(all, false) == View(events, false); }
    if Invalidates(e, user, full) { BustedView(View(events, full), View(all, full), e.who, user); }
    if e.PointsBust? && (e.who.None? || e.who.value == user) {
      BustedView(View(events, false), View(all, false), e.who, user);
      BustedView(View(events, true), View(all, true), e.who, user);
    }
  }

  lemma BustedView<V>(before: seq<Event<V>>, view: seq<Event<V>>, who: Option<User>, user: User)
    requires Possible(view) && view == before + [Bust(who)] && (who.None? || who.value == user)
    ensures user !in After(view).entries
  {
  }

  lemma InvalidationIsSeen<V>(before: seq<Event<V>>, e: PairEvent<V>, full: bool, b: nat, user: User)
    requires b < |before|
    ensures Invalidates(e, user, full) ==> !UnaffectedSince(before + Seen(e, full), b, user)
  {
    var view := before + Seen(e, full);
    if Invalidates(e, user, full) { assert Affects(view[|before|], user); }
  }

  /** The event of the whole system behind one event of a view. */
  lemma {:induction false} BehindView<V>(events: seq<PairEvent<V>>, full: bool, b: nat, user: User) returns (i: nat)
    requires b < |View(events, full)| && !View(events, full)[b].Bust?
    requires UnaffectedSince(View(events, full), b, user)
    ensures i < |events| && events[i] == (if full then OnFull(View(events, full)[b]) else OnPoints(View(events, full)[b]))
    ensures forall j :: i < j < |events| ==> !Invalidates(events[j], user, full)
  {
    var k := |events| - 1;
    var front, view, before := events[..k], View(events, full), View(events[..k], full);
    if b < |before| {
      forall q | b < q < |before| ensures !Affects(before[q], user) { assert view[q] == before[q]; }
      i := BehindView(front, full, b, user);
      InvalidationIsSeen(before, events[k], full, b, user);
    } else {
      i := k;
    }
  }

  /** In the system of both caches: what is cached for a user was computed for a `get` after the
    * last bust that invalidates that cache for that user. */
  lemma CachedAfterLastBust<V>(events: seq<PairEvent<V>>, full: bool, user: User) returns (i: nat)
    requires PossiblePair(events) && user in After(View(events, full)).entries
    ensures i < |events| && (if full then events[i].OnFull? else events[i].OnPoints?) && events[i].e.Get? && events[i].e.user == user
    ensures forall j :: i < j < |events| ==> !Invalidates(events[j], user, full)
  {
    hide After, Possible;
    var b, id, c := CachedIsFresh(View(events, full), user);
    i := BehindView(events, full, b, user);
  }
}
