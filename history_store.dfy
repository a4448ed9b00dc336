// The history store: every update gets one new stamp, collects the events it notifies per
// client, and hands them back grouped by client.  A client registering as a listener gets the
// current stamp with its backlog of events.

module HistoryStores {
  import opened Wrappers
  import InMemoryHistoryStores

  /** A stamp with a collection of events; the order of the collection is not modelled. */
  datatype StampedEventList<E> = StampedEventList(stamp: int, updates: multiset<E>)

  /** The events a multimap holds for `target` (none when the target is absent). */
  function Events<K, E>(m: map<K, set<E>>, target: K): set<E>
  {
    if target in m then m[target] else {}
  }

  /** No target is present with an empty set of events. */
  predicate NoEmptyEntries<K, E>(m: map<K, set<E>>)
  {
    forall k :: k in m ==> m[k] != {}
  }

  /** Multimap put with set semantics: `event` joins the events of `target`, a duplicate collapses. */
  function Put<K(!new), E>(m: map<K, set<E>>, target: K, event: E): (r: map<K, set<E>>)
    ensures r.Keys == m.Keys + {target}
    ensures forall k :: Events(r, k) == Events(m, k) + (if k == target then {event} else {})
    ensures NoEmptyEntries(m) ==> NoEmptyEntries(r)
  {
    m[target := Events(m, target) + {event}]
  }

  /** The multimap that the notifications of `work`, made one after the other, build from an empty one. */
  function Collected<K(!new), E(!new)>(work: seq<(K, E)>): (r: map<K, set<E>>)
    ensures NoEmptyEntries(r)
    ensures forall k, e :: e in Events(r, k) <==> (k, e) in work
  {
    if |work| == 0 then map[]
    else
      var init := work[..|work| - 1];
      var r := Put(Collected(init), work[|work| - 1].0, work[|work| - 1].1);
      assert work == init + [work[|work| - 1]];
      r
  }

  lemma CollectedStep<K(!new), E(!new)>(work: seq<(K, E)>, i: nat)
    requires i < |work|
    ensures Collected(work[..i + 1]) == Put(Collected(work[..i]), work[i].0, work[i].1)
  {
    assert work[..i + 1][..i] == work[..i];
  }

  /** The session an update runs in: its stamp and the events notified so far. */
  class UpdateSession<K(==,!new), E(==)> {
    const stamp: int
    var notifications: map<K, set<E>>

    constructor(stamp: int)
      ensures this.stamp == stamp && notifications == map[]
    {
      this.stamp := stamp;
      notifications := map[];
    }

    method Notify(target: K, event: E)
      modifies this
      ensures notifications == Put(old(notifications), target, event)
    {
      notifications := Put(notifications, target, event);
    }
  }

  /** The outcome of an update: its stamp, and the events of each client. */
  datatype PerClientUpdates<K(!new), E> = PerClientUpdates(stamp: int, updates: map<K, set<E>>)
  {
    /** The events of `target` with the update's stamp; nothing when it has none. */
    function Get(target: K): (r: Option<StampedEventList<E>>)
      ensures r.None? <==> Events(updates, target) == {}
      ensures r.Some? ==> r.value.stamp == stamp && r.value.updates == multiset(Events(updates, target))
    {
      var events := Events(updates, target);
      if events == {} then None else Some(StampedEventList(stamp, multiset(events)))
    }

    /** Some client has an event. */
    function HasEvents(): (r: bool)
      ensures r <==> exists target :: Get(target).Some?
    {
      var r := exists k | k in updates :: updates[k] != {};
      assert r ==> exists k :: k in updates && updates[k] != {} && Get(k).Some?;
      r
    }
  }

  /**
   * An update: a new stamp is taken from the store, then the work notifies its events, which
   * are returned per client with that stamp.
   */
  method Update<K(!new), E(!new)>(store: InMemoryHistoryStores.InMemoryHistoryStore, work: seq<(K, E)>) returns (updates: PerClientUpdates<K, E>)
    modifies store
    ensures store.stamp == old(store.stamp) + 1 && updates.stamp == store.stamp
    ensures updates.updates == Collected(work)
  {
    var stamp := store.IncrementStamp();
    var session := new UpdateSession<K, E>(stamp);
    var i := 0;
    while i < |work|
      invariant 0 <= i <= |work| && store.stamp == stamp
      invariant session.notifications == Collected(work[..i])
    {
      session.Notify(work[i].0, work[i].1);
      CollectedStep(work, i);
      i := i + 1;
    }
    assert work[..i] == work;
    updates := PerClientUpdates(stamp, session.notifications);
  }

  /** A new listener: the store's current stamp with the listener's backlog of events. */
  function AddListener<E>(store: InMemoryHistoryStores.InMemoryHistoryStore, backlog: seq<E>): (r: StampedEventList<E>)
    reads store
    ensures r.stamp == store.GetStamp() && r.updates == multiset(backlog)
  {
    StampedEventList(store.stamp, multiset(backlog))
  }

  /** An update gives each client exactly the events notified to it, all under one stamp. */
  lemma UpdateDeliversWhatWasNotified<K(!new), E(!new)>(stamp: int, work: seq<(K, E)>, target: K)
    ensures var r := PerClientUpdates(stamp, Collected(work)).Get(target);
            (r.None? <==> forall e :: (target, e) !in work)
            && (r.Some? ==> r.value.stamp == stamp && forall e :: e in r.value.updates <==> (target, e) in work)
  {
    var events := Events(Collected(work), target);
    if events == {} {
      assert forall e :: (target, e) !in work;
    } else {
      var e :| e in events;
      assert (target, e) in work;
    }
  }
}
