/** The registry of an RPC server: registered services, threads waiting for a name, and
    watchers that are called back on every registration; and the client that combines
    checks and a watch to wait for a service. */
module ServiceRegistry {
  import opened Common
  import opened Wire

  type Binder = nat
  type WaiterId = nat
  type WatchId = nat

  // ----- the registry -----

  /** Everything the registry keeps about one name. */
  datatype Entry = Entry(service: Option<Binder>, waiters: seq<WaiterId>, watches: set<WatchId>)

  const NOTHING := Entry(None, [], {})

  function Without(ws: seq<WaiterId>, w: WaiterId): seq<WaiterId> {
    if ws == [] then [] else if ws[0] == w then ws[1..] else [ws[0]] + Without(ws[1..], w)
  }

  // -- what each operation does to the entry of its name --

  function Registered(e: Entry, b: Binder): Entry { e.(service := Some(b), waiters := []) }
  function Unregistered(e: Entry): Entry { e.(service := None) }
  function Queued(e: Entry, w: WaiterId): Entry { e.(waiters := e.waiters + [w]) }
  function Dequeued(e: Entry, w: WaiterId): Entry { e.(waiters := Without(e.waiters, w)) }
  function Watched(e: Entry, id: WatchId): Entry { e.(watches := e.watches + {id}) }
  function Unwatched(e: Entry, id: WatchId): Entry { e.(watches := e.watches - {id}) }

  /** What a new watcher is told at once. */
  function Present(e: Entry): seq<Binder> { if e.service.Some? then [e.service.value] else [] }

  lemma {:induction false} WithoutAt(ws: seq<WaiterId>, w: WaiterId, i: nat)
    requires i <= |ws| && w !in ws[..i] && (i < |ws| ==> ws[i] == w)
    ensures Without(ws, w) == if i < |ws| then ws[..i] + ws[i + 1..] else ws
    decreases i
  {
    if i > 0 {
      assert ws[..i][0] == ws[0] && ws[..i][1..] == ws[1..][..i - 1];
      WithoutAt(ws[1..], w, i - 1);
      if i < |ws| {
        assert [ws[0]] + (ws[1..][..i - 1] + ws[1..][i..]) == ws[..i] + ws[i + 1..];
      } else {
        assert [ws[0]] + ws[1..] == ws;
      }
    }
  }

  method IndexOf(ws: seq<WaiterId>, w: WaiterId) returns (i: nat)
    ensures i <= |ws| && w !in ws[..i] && (i < |ws| ==> ws[i] == w)
  {
    i := 0;
    while i < |ws| && ws[i] != w
      invariant i <= |ws| && w !in ws[..i]
    {
      i := i + 1;
    }
  }

  class Registry {
    var services: map<string, Binder>
    var waiters: map<string, seq<WaiterId>>
    var watchers: map<string, set<WatchId>>
    var nextWatchID: WatchId
    var nextWaiter: WaiterId
    /** Waiters closed so far, and callbacks made so far, in order. */
    var closed: seq<WaiterId>
    var calls: seq<(WatchId, Binder)>

    /** A name has a list of waiters or of watchers only if it is not empty. */
    predicate Valid() reads this {
      (forall n :: n in waiters ==> waiters[n] != []) && (forall n :: n in watchers ==> watchers[n] != {})
    }

    function Of(name: string): Entry
      reads this
    {
      Entry(if name in services then Some(services[name]) else None,
            if name in waiters then waiters[name] else [],
            if name in watchers then watchers[name] else {})
    }

    constructor ()
      ensures Valid() && forall n :: Of(n) == NOTHING
      ensures nextWatchID == 0 && nextWaiter == 0 && closed == [] && calls == []
    {
      services, waiters, watchers := map[], map[], map[];
      nextWatchID, nextWaiter, closed, calls := 0, 0, [], [];
    }

    /** Registers, wakes every waiter of the name and calls every watcher of it, in any
        order. `refused` is a service of the wrong stability. */
    method Add(name: string, service: Binder, refused: bool) returns (ok: bool)
      requires Valid()
      modifies this`services, this`waiters, this`closed, this`calls
      ensures Valid() && (ok <==> name == "" || !refused)
      ensures refused || name == "" ==>
        services == old(services) && waiters == old(waiters) && closed == old(closed) && calls == old(calls)
      ensures !refused && name != "" ==>
        Of(name) == Registered(old(Of(name)), service)
        && closed == old(closed) + old(Of(name)).waiters
        && |calls| == |old(calls)| + |old(Of(name)).watches| && calls[..|old(calls)|] == old(calls)
        && forall w :: w in old(Of(name)).watches <==> (w, service) in calls[|old(calls)|..]
      ensures forall n :: n != name ==> Of(n) == old(Of(n))
    {
      if name == "" {
        return true;
      }
      if refused {
        return false;
      }
      services := services[name := service];
      var woken := if name in waiters then waiters[name] else [];
      waiters := waiters - {name};
      var watches := if name in watchers then watchers[name] else {};
      CloseAll(woken);
      CallAll(watches, service);
      return true;
    }

    method CloseAll(woken: seq<WaiterId>)
      modifies this`closed
      ensures closed == old(closed) + woken
    {
      var i := 0;
      while i < |woken|
        invariant 0 <= i <= |woken| && closed == old(closed) + woken[..i]
      {
        closed := closed + [woken[i]];
        i := i + 1;
      }
      assert woken[..i] == woken;
    }

    method CallAll(watches: set<WatchId>, service: Binder)
      modifies this`calls
      ensures |calls| == |old(calls)| + |watches| && calls[..|old(calls)|] == old(calls)
      ensures forall w :: w in watches <==> (w, service) in calls[|old(calls)|..]
    {
      var todo := watches;
      while todo != {}
        invariant todo <= watches && |calls| + |todo| == |old(calls)| + |watches|
        invariant |old(calls)| <= |calls| && calls[..|old(calls)|] == old(calls)
        invariant forall w :: w in watches && w !in todo <==> (w, service) in calls[|old(calls)|..]
        decreases |todo|
      {
        var w :| w in todo;
        ghost var before := calls[|old(calls)|..];
        calls := calls + [(w, service)];
        assert calls[|old(calls)|..] == before + [(w, service)];
        todo := todo - {w};
      }
    }

    /** The locked section of a wait: the service, or a place in the queue. */
    method Enqueue(name: string) returns (service: Option<Binder>, w: WaiterId)
      requires Valid()
      modifies this`waiters, this`nextWaiter
      ensures Valid() && service == old(Of(name)).service
      ensures service.Some? ==> waiters == old(waiters) && nextWaiter == old(nextWaiter)
      ensures service.None? ==> w == old(nextWaiter) && nextWaiter == w + 1
                                && Of(name) == Queued(old(Of(name)), w)
      ensures forall n :: n != name ==> Of(n) == old(Of(n))
    {
      w := nextWaiter;
      if name in services {
        return Some(services[name]), w;
      }
      waiters := waiters[name := (if name in waiters then waiters[name] else []) + [w]];
      nextWaiter := nextWaiter + 1;
      return None, w;
    }

    method RemoveWaiter(name: string, w: WaiterId)
      requires Valid()
      modifies this`waiters
      ensures Valid() && Of(name) == Dequeued(old(Of(name)), w)
      ensures forall n :: n != name ==> Of(n) == old(Of(n))
    {
      var ws := if name in waiters then waiters[name] else [];
      var i := IndexOf(ws, w);
      WithoutAt(ws, w, i);
      if i < |ws| {
        ws := ws[..i] + ws[i + 1..];
      }
      if ws == [] {
        waiters := waiters - {name};
      } else {
        waiters := waiters[name := ws];
      }
    }

    /** Watches a name; a service that is already there is reported at once. */
    method WatchRegistrations(name: string) returns (id: WatchId)
      requires Valid()
      modifies this`watchers, this`nextWatchID, this`calls
      ensures Valid() && id == nextWatchID == old(nextWatchID) + 1
      ensures Of(name) == Watched(old(Of(name)), id)
      ensures calls == old(calls) + (if Present(Of(name)) == [] then [] else [(id, Present(Of(name))[0])])
      ensures forall n :: n != name ==> Of(n) == old(Of(n))
    {
      nextWatchID := nextWatchID + 1;
      id := nextWatchID;
      watchers := watchers[name := (if name in watchers then watchers[name] else {}) + {id}];
      if name in services {
        calls := calls + [(id, services[name])];
      }
    }

    method Unwatch(name: string, id: WatchId)
      requires Valid()
      modifies this`watchers
      ensures Valid() && Of(name) == Unwatched(old(Of(name)), id)
      ensures forall n :: n != name ==> Of(n) == old(Of(n))
    {
      var left := (if name in watchers then watchers[name] else {}) - {id};
      if left == {} {
        watchers := watchers - {name};
      } else {
        watchers := watchers[name := left];
      }
    }

    /** Only the binder that is registered can be taken out, and only without clients. */
    method TryUnregister(name: string, service: Binder, hasClients: bool) returns (ok: bool)
      requires Valid()
      modifies this`services
      ensures Valid() && (ok <==> old(Of(name)).service == Some(service) && !hasClients)
      ensures Of(name) == if ok then Unregistered(old(Of(name))) else old(Of(name))
      ensures forall n :: n != name ==> Of(n) == old(Of(n))
    {
      if name !in services || services[name] != service || hasClients {
        return false;
      }
      services := services - {name};
      return true;
    }
  }
}
