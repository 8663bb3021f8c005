/** Exactly what is cached after any interleaving, and when a compute is started again. */
module SwrExact {
  import opened Wrappers
  import opened SwrCache

  /** Event `c` stores its value for the user: it settles a compute that was requested for the user by
    * event `b`, and no bust came in between. */
  ghost predicate Stores<V>(events: seq<Event<V>>, b: nat, c: nat, user: User) {
    && b < c < |events| && events[c].Settle? && Requests(events, b, events[c].id, user)
    && forall i :: b < i < c ==> !events[i].Bust?
  }

  ghost predicate StoresAt<V>(events: seq<Event<V>>, c: nat, user: User) { exists b: nat :: Stores(events, b, c, user) }

  /** The last event that stored for the user, and no bust has affected the user since. */
  ghost predicate LastStore<V>(events: seq<Event<V>>, c: nat, user: User) {
    && c < |events| && StoresAt(events, c, user) && UnaffectedSince(events, c, user)
    && forall d: nat :: c < d < |events| ==> !StoresAt(events, d, user)
  }

  /** The user's entry holds what event `c` settled with, as of then. */
  ghost predicate Cached<V>(events: seq<Event<V>>, c: nat, user: User, cache: Cache<V>) {
    && c < |events| && events[c].Settle? && user in cache.entries
    && cache.entries[user].value == events[c].value && cache.entries[user].at == events[c].now
  }

  lemma RequestsOfPrefix<V>(events: seq<Event<V>>, k: nat, b: nat, id: nat, user: User)
    requires b < k <= |events|
    ensures Requests(events[..k], b, id, user) <==> Requests(events, b, id, user)
  {
    assert events[..k][..b] == events[..b] && events[..k][..b + 1] == events[..b + 1];
  }

  lemma StoresOfPrefix<V>(events: seq<Event<V>>, k: nat, c: nat, user: User)
    requires c < k <= |events|
    ensures StoresAt(events[..k], c, user) <==> StoresAt(events, c, user)
  {
    hide Requests;
    forall b: nat ensures Stores(events[..k], b, c, user) <==> Stores(events, b, c, user) {
      if b < c && events[c].Settle? { RequestsOfPrefix(events, k, b, events[c].id, user); }
    }
  }

  /** A compute has one requesting event. */
  lemma {:induction false} RequestIsUnique<V>(events: seq<Event<V>>, b: nat, b': nat, id: nat, user: User, user': User)
    requires Possible(events) && Requests(events, b, id, user) && Requests(events, b', id, user')
    ensures b == b'
  {
    if b < b' { ComputesGrowBetween(events, b + 1, b'); }
    if b' < b { ComputesGrowBetween(events, b' + 1, b); }
  }

  lemma {:induction false} ComputesGrowBetween<V>(events: seq<Event<V>>, k: nat, m: nat)
    requires k <= m <= |events| && Possible(events[..k]) && Possible(events[..m])
    ensures |After(events[..k]).computes| <= |After(events[..m]).computes|
  {
    assert events[..m][..k] == events[..k];
    ComputesGrow(events[..m], k);
  }

  /** A settling compute stores exactly if its generation is the current one. */
  lemma {:induction false} SettleStoresIff<V>(front: seq<Event<V>>, e: Event<V>, user: User)
    requires Possible(front) && Possible(front + [e]) && e.Settle? && Enabled(After(front), e)
    ensures var k := After(front).computes[e.id];
      StoresAt(front + [e], |front|, user) <==> k.user == user && k.gen == After(front).gen
  {
    hide Next, Possible;
    var events := front + [e];
    var b := ComputeOrigin(front, e.id);
    var k := After(front).computes[e.id];
    RequestsOfLonger(front, e, b, e.id, k.user);
    assert events[..|front|] == front;
    assert k.gen == After(front).gen <==> forall i :: b < i < |front| ==> !events[i].Bust?;
    if k.user == user && k.gen == After(front).gen { assert Stores(events, b, |front|, user); }
    if b': nat :| Stores(events, b', |front|, user) {
      RequestIsUnique(events, b, b', e.id, k.user, user);
    }
  }

  lemma LastOfLonger<V>(front: seq<Event<V>>, e: Event<V>, c: nat, user: User)
    requires c < |front|
    ensures LastStore(front + [e], c, user) <==> LastStore(front, c, user) && !Affects(e, user) && !StoresAt(front + [e], |front|, user)
  {
    hide StoresAt;
    var events := front + [e];
    assert events[..|front|] == front && events[|front|] == e;
    forall d: nat | d < |front| ensures StoresAt(events, d, user) <==> StoresAt(front, d, user) { StoresOfPrefix(events, |front|, d, user); }
    assert UnaffectedSince(events, c, user) <==> UnaffectedSince(front, c, user) && !Affects(e, user) by {
      assert forall i :: c < i < |front| ==> events[i] == front[i];
    }
  }

  /** A cache holds, for each user, the value of the last compute that stored one, unless a bust has
    * affected the user since; and it holds nothing else. */
  lemma {:induction false} CachedExactly<V>(events: seq<Event<V>>, user: User)
    requires Possible(events)
    ensures forall c: nat :: LastStore(events, c, user) ==> Cached(events, c, user, After(events))
    ensures user in After(events).entries ==> exists c: nat :: LastStore(events, c, user)
  {
    hide LastStore, StoresAt;
    if events == [] {
      assert forall c: nat :: !LastStore(events, c, user) by { NothingStored<V>(user); }
    } else {
      var k := |events| - 1;
      var front, e := events[..k], events[k];
      assert events == front + [e];
      CachedExactly(front, user);
      forall c: nat | c < k ensures LastStore(events, c, user) <==> LastStore(front, c, user) && !Affects(e, user) && !StoresAt(events, k, user) {
        LastOfLonger(front, e, c, user);
      }
      StoresOnlySettled(events, k, user);
      LastIsLast(events, k, user);
      if e.Settle? { SettleStoresIff(front, e, user); }
      EntryAfter(front, e, user);
      forall c: nat | LastStore(events, c, user) ensures Cached(events, c, user, After(events)) {
        StoreIsEarlier(events, c, user);
      }
      if user in After(events).entries && !StoresAt(events, k, user) {
        var c: nat :| LastStore(front, c, user);
        StoreIsEarlier(front, c, user);
        assert LastStore(events, c, user);
      }
    }
  }

  lemma NothingStored<V>(user: User)
    ensures forall c: nat :: !LastStore<V>([], c, user)
  {
  }

  lemma StoreIsEarlier<V>(events: seq<Event<V>>, c: nat, user: User)
    requires LastStore(events, c, user)
    ensures c < |events| && events[c].Settle?
  {
  }

  lemma StoresOnlySettled<V>(events: seq<Event<V>>, c: nat, user: User)
    ensures StoresAt(events, c, user) ==> c < |events| && events[c].Settle?
  {
  }

  lemma LastIsLast<V>(events: seq<Event<V>>, k: nat, user: User)
    requires k == |events| - 1
    ensures LastStore(events, k, user) <==> StoresAt(events, k, user)
  {
  }

  /** What one event does to the entry of a user. */
  lemma EntryAfter<V>(front: seq<Event<V>>, e: Event<V>, user: User)
    requires Possible(front) && Possible(front + [e])
    ensures Enabled(After(front), e)
    ensures var was, now := After(front).entries, After(front + [e]).entries;
      var stores := e.Settle? && After(front).computes[e.id].user == user && After(front).computes[e.id].gen == After(front).gen;
      && (stores ==> user in now && now[user] == Entry(e.value, e.now))
      && (!stores && Affects(e, user) ==> user !in now)
      && (!stores && !Affects(e, user) ==> (user in now <==> user in was) && (user in was ==> now[user] == was[user]))
  {
    assert (front + [e])[..|front|] == front;
  }
}
