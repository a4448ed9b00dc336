// The open websocket clients, by session.  Broadcasting sends a payload once to each client
// that is still open; removing a client closes it.

module ClientCollections {
  import opened Wrappers
  import opened BroadcastTargets

  class ClientCollection<S(==)> {
    var clients: map<S, SessionBroadcastTarget<S>>

    /** Each client is stored under its own session, so distinct entries are distinct targets. */
    ghost predicate Valid()
      reads this
    {
      forall s :: s in clients ==> clients[s].session == s
    }

    constructor()
      ensures clients == map[] && Valid()
    {
      clients := map[];
    }

    /** Stores `client` for `session`, replacing the previous one. */
    method Put(session: S, client: SessionBroadcastTarget<S>)
      requires Valid() && client.session == session
      modifies this
      ensures clients == old(clients)[session := client] && Valid()
    {
      clients := clients[session := client];
    }

    /** The client of `session`, if there is one. */
    function Get(session: S): (r: Option<SessionBroadcastTarget<S>>)
      reads this
      ensures r.None? <==> session !in clients
      ensures r.Some? ==> r.value == clients[session]
    {
      if session in clients then Some(clients[session]) else None
    }

    /**
     * Forgets the client of `session` and returns it, closing it; `ok` is false when that
     * client had already been closed (the close fails after the client is forgotten).
     */
    method Remove(session: S) returns (client: Option<SessionBroadcastTarget<S>>, ok: bool)
      modifies this, clients.Values
      ensures clients == old(clients) - {session}
      ensures client.None? <==> session !in old(clients)
      ensures client.None? ==> ok
      ensures client.Some? ==> client.value == old(clients)[session] && (ok <==> old(client.value.open))
      ensures client.Some? && ok ==> !client.value.open && client.value.onClose == []
                                     && client.value.ran == old(client.value.ran) + old(client.value.onClose)
                                     && client.value.warnings == old(client.value.warnings) + Failing(old(client.value.onClose))
      ensures client.Some? && !ok ==> Unchanged(client.value)
      ensures client.Some? ==> client.value.sent == old(client.value.sent)
      ensures old(Valid()) ==> Valid() && forall s :: s in clients ==> Unchanged(clients[s])
    {
      if session in clients {
        var c := clients[session];
        clients := clients - {session};
        client := Some(c);
        ok := c.MarkClosed();
      } else {
        client := None;
        ok := true;
      }
    }

    /** Sends `payload` once to each open client; closed clients get nothing. */
    method Broadcast(payload: string)
      requires Valid()
      modifies clients.Values
      ensures forall s :: s in clients ==>
                clients[s].sent == old(clients[s].sent) + (if old(clients[s].open) then [payload] else [])
      ensures forall s :: s in clients ==> Unchanged(clients[s])
    {
      var remaining := clients.Keys;
      while remaining != {}
        invariant remaining <= clients.Keys
        invariant forall s :: s in clients ==> Unchanged(clients[s])
        invariant forall s :: s in clients ==>
                    clients[s].sent == old(clients[s].sent) + (if s !in remaining && old(clients[s].open) then [payload] else [])
        decreases remaining
      {
        var s :| s in remaining;
        var c := clients[s];
        if c.IsOpen() {
          c.SendOrLog(payload);
        }
        remaining := remaining - {s};
      }
    }

    /** Sends each open client the payload computed for its session, when there is one. */
    method BroadcastEach(payload: S -> Option<string>)
      requires Valid()
      modifies clients.Values
      ensures forall s :: s in clients ==>
                clients[s].sent == old(clients[s].sent) + (if old(clients[s].open) && payload(s).Some? then [payload(s).value] else [])
      ensures forall s :: s in clients ==> Unchanged(clients[s])
    {
      var remaining := clients.Keys;
      while remaining != {}
        invariant remaining <= clients.Keys
        invariant forall s :: s in clients ==> Unchanged(clients[s])
        invariant forall s :: s in clients ==>
                    clients[s].sent == old(clients[s].sent)
                                       + (if s !in remaining && old(clients[s].open) && payload(s).Some? then [payload(s).value] else [])
        decreases remaining
      {
        var s :| s in remaining;
        var c := clients[s];
        if c.IsOpen() {
          match payload(s)
          case Some(p) => c.SendOrLog(p);
          case None =>
        }
        remaining := remaining - {s};
      }
    }
  }

  /** A target's state other than what it sent is as it was. */
  twostate predicate Unchanged<S>(t: SessionBroadcastTarget<S>)
    reads t
  {
    t.open == old(t.open) && t.onClose == old(t.onClose) && t.ran == old(t.ran) && t.warnings == old(t.warnings)
  }
}
