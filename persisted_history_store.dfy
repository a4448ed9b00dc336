// The history store backed by the database keeps, for each listening client, the query the
// client registered with; an update asks each registered query for an event and notifies the
// client of it.

module PersistedHistoryStores {
  import opened Wrappers
  import opened HistoryStores

  /** The event the query of `client` yields, as a set: empty when it is not registered or yields nothing. */
  function Reached<K, Q, E>(sessions: map<K, Q>, apply: Q -> Option<E>, client: K): set<E>
  {
    if client in sessions && apply(sessions[client]).Some? then {apply(sessions[client]).value} else {}
  }

  /** The registered clients whose query yields an event. */
  function Reachable<K(!new), Q, E>(sessions: map<K, Q>, apply: Q -> Option<E>): (r: set<K>)
    ensures forall k :: k in r <==> Reached(sessions, apply, k) != {}
  {
    set k | k in sessions && apply(sessions[k]).Some?
  }

  /** `m` after every registered client whose query yields an event has been notified of it. */
  function Notified<K(!new), Q, E>(m: map<K, set<E>>, sessions: map<K, Q>, apply: Q -> Option<E>): (r: map<K, set<E>>)
    ensures r.Keys == m.Keys + Reachable(sessions, apply)
    ensures forall k :: Events(r, k) == Events(m, k) + Reached(sessions, apply, k)
    ensures NoEmptyEntries(m) ==> NoEmptyEntries(r)
  {
    map k | k in m.Keys + Reachable(sessions, apply) :: Events(m, k) + Reached(sessions, apply, k)
  }

  /** A client that is not registered is notified of nothing. */
  lemma UnregisteredClientGetsNothing<K(!new), Q, E>(m: map<K, set<E>>, sessions: map<K, Q>, apply: Q -> Option<E>, client: K)
    ensures Events(Notified(m, sessions - {client}, apply), client) == Events(m, client)
    ensures forall k :: k != client ==> Events(Notified(m, sessions - {client}, apply), k) == Events(Notified(m, sessions, apply), k)
  {
  }

  lemma NotifyingNoClient<K(!new), Q, E>(m: map<K, set<E>>, apply: Q -> Option<E>)
    ensures Notified(m, map[], apply) == m
  {
    var r := Notified(m, map[], apply);
    assert r.Keys == m.Keys;
    forall k | k in m
      ensures r[k] == m[k]
    {
      assert Events(r, k) == Events(m, k);
    }
  }

  /** Notifying one more client is one multimap put, or nothing when its query yields no event. */
  lemma NotifyOneMore<K(!new), Q, E>(m: map<K, set<E>>, sessions: map<K, Q>, client: K, query: Q, apply: Q -> Option<E>)
    requires client !in sessions
    ensures var before := Notified(m, sessions, apply);
            Notified(m, sessions[client := query], apply)
            == if apply(query).Some? then Put(before, client, apply(query).value) else before
  {
    var before, after := Notified(m, sessions, apply), Notified(m, sessions[client := query], apply);
    var expected := if apply(query).Some? then Put(before, client, apply(query).value) else before;
    assert after.Keys == expected.Keys by {
      OneMoreReachable(sessions, client, query, apply);
    }
    assert forall k :: Events(after, k) == Events(expected, k) by {
      OneMoreEvents(m, sessions, client, query, apply);
    }
    SameEvents(after, expected);
  }

  lemma OneMoreEvents<K(!new), Q, E>(m: map<K, set<E>>, sessions: map<K, Q>, client: K, query: Q, apply: Q -> Option<E>)
    requires client !in sessions
    ensures forall k :: Events(Notified(m, sessions[client := query], apply), k)
                        == Events(Notified(m, sessions, apply), k) + (if k == client then Reached(map[client := query], apply, client) else {})
  {
    forall k
      ensures Reached(sessions[client := query], apply, k)
              == Reached(sessions, apply, k) + (if k == client then Reached(map[client := query], apply, client) else {})
    {
    }
  }

  lemma OneMoreReachable<K(!new), Q, E>(sessions: map<K, Q>, client: K, query: Q, apply: Q -> Option<E>)
    requires client !in sessions
    ensures Reachable(sessions[client := query], apply)
            == Reachable(sessions, apply) + (if apply(query).Some? then {client} else {})
  {
  }

  /** Two multimaps without empty entries that give every target the same events are equal. */
  lemma SameEvents<K, E>(a: map<K, set<E>>, b: map<K, set<E>>)
    requires forall k :: Events(a, k) == Events(b, k)
    requires a.Keys == b.Keys
    ensures a == b
  {
    forall k | k in a
      ensures a[k] == b[k]
    {
      assert Events(a, k) == Events(b, k);
    }
  }

  /** Notifying one more of the remaining clients is one put, or nothing when its query yields no event. */
  lemma NotifyStep<K(!new), Q, E>(m: map<K, set<E>>, sessions: map<K, Q>, remaining: set<K>, client: K, apply: Q -> Option<E>)
    requires client in remaining && remaining <= sessions.Keys
    ensures var before := Notified(m, Restricted(sessions, sessions.Keys - remaining), apply);
            Notified(m, Restricted(sessions, sessions.Keys - (remaining - {client})), apply)
            == if apply(sessions[client]).Some? then Put(before, client, apply(sessions[client]).value) else before
  {
    var done := Restricted(sessions, sessions.Keys - remaining);
    assert Restricted(sessions, sessions.Keys - (remaining - {client})) == done[client := sessions[client]];
    NotifyOneMore(m, done, client, sessions[client], apply);
  }

  /** The sessions restricted to the clients of `keys`. */
  function Restricted<K, Q>(sessions: map<K, Q>, keys: set<K>): (r: map<K, Q>)
    ensures r.Keys == sessions.Keys * keys
    ensures forall k :: k in r ==> r[k] == sessions[k]
  {
    map k | k in sessions && k in keys :: sessions[k]
  }

  class PersistedHistoryStore<K(==,!new), Q, E(==,!new)> {
    /** The query each listening client registered with. */
    var sessions: map<K, Q>

    constructor()
      ensures sessions == map[]
    {
      sessions := map[];
    }

    /**
     * Registers `client` with `query`, replacing any earlier query of that client, and returns
     * the store's current stamp with the client's backlog (both computed by the database
     * side, which is not part of this model).
     */
    method AddListener(client: K, query: Q, stamp: int, backlog: seq<E>) returns (r: StampedEventList<E>)
      modifies this
      ensures sessions == old(sessions)[client := query]
      ensures r == StampedEventList(stamp, multiset(backlog))
    {
      sessions := sessions[client := query];
      r := StampedEventList(stamp, multiset(backlog));
    }

    /** Forgets `client`; nothing changes for a client that is not registered. */
    method RemoveListener(client: K)
      modifies this
      ensures sessions == old(sessions) - {client}
      ensures client !in old(sessions) ==> sessions == old(sessions)
    {
      sessions := sessions - {client};
    }

    /** Notifies each registered client of the event its query yields, if any. */
    method NotifyListeners(session: UpdateSession<K, E>, apply: Q -> Option<E>)
      modifies session
      ensures session.notifications == Notified(old(session.notifications), sessions, apply)
    {
      var remaining := sessions.Keys;
      assert Restricted(sessions, sessions.Keys - remaining) == map[];
      NotifyingNoClient(session.notifications, apply);
      while remaining != {}
        invariant remaining <= sessions.Keys
        invariant session.notifications == Notified(old(session.notifications), Restricted(sessions, sessions.Keys - remaining), apply)
        decreases remaining
      {
        var client :| client in remaining;
        NotifyStep(old(session.notifications), sessions, remaining, client, apply);
        if apply(sessions[client]).Some? {
          session.Notify(client, apply(sessions[client]).value);
        }
        remaining := remaining - {client};
      }
      assert Restricted(sessions, sessions.Keys - remaining) == sessions;
    }
  }
}
