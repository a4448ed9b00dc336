// The websocket endpoint: a session that opens gets a new open target; a session that closes
// or fails is forgotten, its target closed and its listener removed from the history store.

module QuarkusWebSockets {
  import opened Wrappers
  import opened BroadcastTargets
  import opened ClientCollections
  import opened PersistedHistoryStores

  class QuarkusWebSocket<S(==,!new), Q, E(==,!new)> {
    const clients: ClientCollection<S>
    const store: PersistedHistoryStore<S, Q, E>

    /** Every client of the endpoint is stored under its session and is still open. */
    ghost predicate Valid()
      reads this, clients, clients.clients.Values
    {
      clients.Valid() && forall s :: s in clients.clients ==> clients.clients[s].open
    }

    constructor(store: PersistedHistoryStore<S, Q, E>)
      ensures this.store == store && fresh(clients) && clients.clients == map[] && Valid()
    {
      this.store := store;
      clients := new ClientCollection();
    }

    /** A session opened: it gets a new open target with no close tasks, replacing any earlier one. */
    method OnOpen(session: S)
      requires Valid()
      modifies clients
      ensures clients.clients.Keys == old(clients.clients).Keys + {session}
      ensures forall s :: s in old(clients.clients) && s != session ==> clients.clients[s] == old(clients.clients)[s]
      ensures fresh(clients.clients[session]) && clients.clients[session].session == session
      ensures clients.clients[session].onClose == [] && clients.clients[session].sent == []
      ensures Valid()
    {
      var target := new SessionBroadcastTarget(session);
      clients.Put(session, target);
    }

    /** A session closed. */
    method OnClose(session: S)
      requires Valid()
      modifies clients, clients.clients.Values, store
      ensures clients.clients == old(clients.clients) - {session}
      ensures session !in old(clients.clients) ==> store.sessions == old(store.sessions)
      ensures session in old(clients.clients) ==>
                var target := old(clients.clients)[session];
                store.sessions == old(store.sessions) - {session}
                && !target.open && target.onClose == [] && target.ran == old(target.ran) + old(target.onClose)
      ensures Valid()
    {
      RemoveSession(session);
    }

    /** A session failed; the error itself is only logged. */
    method OnError(session: S, error: string)
      requires Valid()
      modifies clients, clients.clients.Values, store
      ensures clients.clients == old(clients.clients) - {session}
      ensures session !in old(clients.clients) ==> store.sessions == old(store.sessions)
      ensures session in old(clients.clients) ==>
                var target := old(clients.clients)[session];
                store.sessions == old(store.sessions) - {session}
                && !target.open && target.onClose == [] && target.ran == old(target.ran) + old(target.onClose)
      ensures Valid()
    {
      RemoveSession(session);
    }

    /**
     * The session is forgotten; if it had a client, that client is closed (running its close
     * tasks) and its listener is removed from the store; otherwise the store is untouched.
     */
    method RemoveSession(session: S)
      requires Valid()
      modifies clients, clients.clients.Values, store
      ensures clients.clients == old(clients.clients) - {session}
      ensures session !in old(clients.clients) ==> store.sessions == old(store.sessions)
      ensures session in old(clients.clients) ==>
                var target := old(clients.clients)[session];
                store.sessions == old(store.sessions) - {session}
                && !target.open && target.onClose == [] && target.ran == old(target.ran) + old(target.onClose)
      ensures Valid()
    {
      var client, ok := clients.Remove(session);
      if client.Some? {
        store.RemoveListener(client.value.session);
      }
    }

    /** Sends each open client the payload computed for its session, when there is one. */
    method Broadcast(payload: S -> Option<string>)
      requires Valid()
      modifies clients.clients.Values
      ensures forall s :: s in clients.clients ==>
                clients.clients[s].sent == old(clients.clients[s].sent) + (if payload(s).Some? then [payload(s).value] else [])
      ensures forall s :: s in clients.clients ==> ClientCollections.Unchanged(clients.clients[s])
      ensures Valid()
    {
      clients.BroadcastEach(payload);
    }
  }

  /** A close after an error (or an error after a close) of the same session changes nothing more. */
  method ErrorThenClose<S(==,!new), Q, E(==,!new)>(endpoint: QuarkusWebSocket<S, Q, E>, session: S, error: string)
    requires endpoint.Valid()
    modifies endpoint.clients, endpoint.clients.clients.Values, endpoint.store
    ensures endpoint.clients.clients == old(endpoint.clients.clients) - {session}
    ensures endpoint.store.sessions == old(endpoint.store.sessions) - (if session in old(endpoint.clients.clients) then {session} else {})
    ensures endpoint.Valid()
  {
    endpoint.OnError(session, error);
    endpoint.OnClose(session);
  }
}
