/** Every interleaving of threads that register, unregister, wait for and watch one name of
    the registry; names do not interfere. */
module ServiceProtocol {
  import opened Common
  import opened Wire
  import opened ServiceRegistry

  /** A waiter: threads that took it out of the queue and will close it, how often it was
      closed, and whether it took itself out. */
  datatype Waiter = Waiter(takers: nat, closes: nat, gone: nat)

  /** Where a client stands that waits with a watch: before its first check, past it, with
      the watch, in the select after the second check, or done. */
  datatype Phase = Start | Missed | Watching | Selecting | Done

  /** `slot` is the one-place channel of the client, `pending` the callbacks that some thread
      has yet to make for its watch. */
  datatype Client = Client(phase: Phase, open: bool, slot: Option<Binder>, pending: seq<Binder>, result: Option<Binder>)

  datatype State = State(
    entry: Entry,
    ever: set<Binder>,         // everything that was ever registered
    waiters: seq<Waiter>,
    clients: seq<Client>)

  datatype Step =
    | Add(service: Binder) | Unregister
    | Wait | CloseWaiter(w: nat) | Cancel(w: nat)
    | Arrive | Check(c: nat) | Watch(c: nat) | Recheck(c: nat)
    | Callback(c: nat) | Take(c: nat) | CloseSub(c: nat) | Leave(c: nat)

  function Init(): State { State(NOTHING, {}, [], []) }

  predicate Enabled(s: State, a: Step) {
    match a
    case CloseWaiter(w) => w < |s.waiters| && s.waiters[w].takers > 0
    case Cancel(w) => w < |s.waiters|
    case Check(c) => c < |s.clients| && s.clients[c].phase == Start
    case Watch(c) => c < |s.clients| && s.clients[c].phase == Missed
    case Recheck(c) => c < |s.clients| && s.clients[c].phase == Watching
    case Callback(c) => c < |s.clients| && s.clients[c].pending != []
    case Take(c) => c < |s.clients| && s.clients[c].phase == Selecting && s.clients[c].slot.Some?
    case CloseSub(c) => c < |s.clients|
    case Leave(c) => c < |s.clients| && s.clients[c].phase == Selecting
    case _ => true
  }

  function SetClient(s: State, c: nat, client: Client): State
    requires c < |s.clients|
  {
    s.(clients := s.clients[c := client])
  }

  function Unwatch(s: State, c: nat): State { s.(entry := Unwatched(s.entry, c)) }

  /** Both checks end the wait if the service is there. */
  function Checked(s: State, c: nat, next: Phase): State
    requires c < |s.clients|
  {
    if s.entry.service.Some?
    then SetClient(Unwatch(s, c), c, s.clients[c].(phase := Done, result := s.entry.service))
    else SetClient(s, c, s.clients[c].(phase := next))
  }

  function Apply(s: State, a: Step): State
    requires Enabled(s, a)
  {
    match a
    case Add(b) =>
      s.(entry := Registered(s.entry, b), ever := s.ever + {b},
         waiters := seq(|s.waiters|, w requires 0 <= w < |s.waiters| =>
           if w in s.entry.waiters then s.waiters[w].(takers := s.waiters[w].takers + 1) else s.waiters[w]),
         clients := seq(|s.clients|, c requires 0 <= c < |s.clients| =>
           if c in s.entry.watches then s.clients[c].(pending := s.clients[c].pending + [b]) else s.clients[c]))
    case Unregister => s.(entry := Unregistered(s.entry))
    case Wait =>
      if s.entry.service.Some? then s
      else s.(entry := Queued(s.entry, |s.waiters|), waiters := s.waiters + [Waiter(0, 0, 0)])
    case CloseWaiter(w) =>
      s.(waiters := s.waiters[w := s.waiters[w].(takers := s.waiters[w].takers - 1, closes := s.waiters[w].closes + 1)])
    case Cancel(w) =>
      if w in s.entry.waiters
      then s.(entry := Dequeued(s.entry, w), waiters := s.waiters[w := s.waiters[w].(gone := s.waiters[w].gone + 1)])
      else s
    case Arrive => s.(clients := s.clients + [Client(Start, false, None, [], None)])
    case Check(c) => Checked(s, c, Missed)
    case Watch(c) =>
      SetClient(
        s, c, s.clients[c].(phase := Watching, open := true, pending := s.clients[c].pending + Present(s.entry)))
      .(entry := Watched(s.entry, c))
    case Recheck(c) => Checked(s, c, Selecting)
    case Callback(c) =>
      var client := s.clients[c];
      var slot := if client.slot.Some? then client.slot else Some(client.pending[0]);
      SetClient(s, c, client.(slot := slot, pending := client.pending[1..]))
    case Take(c) => SetClient(Unwatch(s, c), c, s.clients[c].(phase := Done, result := s.clients[c].slot))
    case CloseSub(c) => SetClient(Unwatch(s, c), c, s.clients[c].(open := false))
    case Leave(c) => SetClient(Unwatch(s, c), c, s.clients[c].(phase := Done))
  }

  // ----- what every step keeps -----

  ghost predicate NoDup(ws: seq<nat>) { forall i, j :: 0 <= i < j < |ws| ==> ws[i] != ws[j] }

  /** Queued only while the name is not registered, each waiter once. */
  ghost predicate QueueOk(s: State) {
    NoDup(s.entry.waiters)
    && (forall w :: w in s.entry.waiters ==> w < |s.waiters|)
    && (s.entry.waiters != [] ==> s.entry.service.None?)
  }

  /** In the queue, held by one thread that will close it, closed, or gone. */
  predicate WaiterOk(s: State, w: nat)
    requires w < |s.waiters|
  {
    Flag(w in s.entry.waiters) + s.waiters[w].takers + s.waiters[w].closes + s.waiters[w].gone == 1
  }

  /** A client with a watch is among the watchers, and if it selects with an empty slot while
      the name is registered then a callback is on its way to it. */
  predicate ClientOk(s: State, c: nat)
    requires c < |s.clients|
  {
    var client := s.clients[c];
    (client.open && (client.phase == Watching || client.phase == Selecting) ==> c in s.entry.watches)
    && (client.open && client.phase == Selecting && client.slot.None? && s.entry.service.Some? ==> client.pending != [])
  }

  /** Binders that reach a client were registered. */
  predicate Genuine(s: State, c: nat)
    requires c < |s.clients|
  {
    var client := s.clients[c];
    (client.slot.Some? ==> client.slot.value in s.ever)
    && (client.result.Some? ==> client.result.value in s.ever)
    && (forall i :: 0 <= i < |client.pending| ==> client.pending[i] in s.ever)
  }

  ghost predicate Inv(s: State) {
    QueueOk(s)
    && (s.entry.service.Some? ==> s.entry.service.value in s.ever)
    && (forall w :: 0 <= w < |s.waiters| ==> WaiterOk(s, w))
    && (forall c :: 0 <= c < |s.clients| ==> ClientOk(s, c) && Genuine(s, c))
  }

  lemma {:induction false} WithoutOnce(ws: seq<nat>, w: nat)
    requires NoDup(ws)
    ensures NoDup(Without(ws, w)) && forall x :: x in Without(ws, w) <==> x in ws && x != w
  {
    if ws != [] {
      var rest := ws[1..];
      assert ws == [ws[0]] + rest;
      assert forall i :: 0 <= i < |rest| ==> rest[i] == ws[i + 1];
      WithoutOnce(rest, w);
      assert ws[0] !in rest;
      if ws[0] != w {
        var r := [ws[0]] + Without(rest, w);
        forall i, j | 0 <= i < j < |r| ensures r[i] != r[j] {
          assert r[j] == Without(rest, w)[j - 1] && r[j] in Without(rest, w);
          if i > 0 { assert r[i] == Without(rest, w)[i - 1]; }
        }
      }
    }
  }

  lemma QueueStep(s: State, a: Step)
    requires QueueOk(s) && Enabled(s, a)
    ensures QueueOk(Apply(s, a))
  {
    if a.Cancel? {
      WithoutOnce(s.entry.waiters, a.w);
    } else if a.Wait? {
      assert forall i :: 0 <= i < |s.entry.waiters| ==> s.entry.waiters[i] in s.entry.waiters;
    }
  }

  lemma WaiterStep(s: State, a: Step, w: nat)
    requires QueueOk(s) && Enabled(s, a) && w < |Apply(s, a).waiters|
    requires w < |s.waiters| ==> WaiterOk(s, w)
    ensures WaiterOk(Apply(s, a), w)
  {
    if a.Cancel? {
      WithoutOnce(s.entry.waiters, a.w);
    }
  }

  lemma ClientStep(s: State, a: Step, c: nat)
    requires Enabled(s, a) && c < |Apply(s, a).clients|
    requires c < |s.clients| ==> ClientOk(s, c)
    ensures ClientOk(Apply(s, a), c)
  {
  }

  lemma GenuineStep(s: State, a: Step, c: nat)
    requires Enabled(s, a) && c < |Apply(s, a).clients|
    requires s.entry.service.Some? ==> s.entry.service.value in s.ever
    requires c < |s.clients| ==> Genuine(s, c)
    ensures Genuine(Apply(s, a), c)
  {
  }

  lemma EverStep(s: State, a: Step)
    requires Enabled(s, a) && (s.entry.service.Some? ==> s.entry.service.value in s.ever)
    ensures Apply(s, a).entry.service.Some? ==> Apply(s, a).entry.service.value in Apply(s, a).ever
  {
  }

  lemma InvStep(s: State, a: Step)
    requires Inv(s) && Enabled(s, a)
    ensures Inv(Apply(s, a))
  {
    hide Apply, Enabled, QueueOk, WaiterOk, ClientOk, Genuine;
    var t := Apply(s, a);
    QueueStep(s, a);
    EverStep(s, a);
    forall w | 0 <= w < |t.waiters| ensures WaiterOk(t, w) {
      WaiterStep(s, a, w);
    }
    forall c | 0 <= c < |t.clients| ensures ClientOk(t, c) && Genuine(t, c) {
      ClientStep(s, a, c);
      GenuineStep(s, a, c);
    }
  }

  // ----- runs -----

  ghost predicate IsRun(run: seq<State>, steps: seq<Step>) {
    |run| == |steps| + 1 && run[0] == Init()
    && forall i :: 0 <= i < |steps| ==> Enabled(run[i], steps[i]) && run[i + 1] == Apply(run[i], steps[i])
  }

  lemma {:induction false} RunInv(run: seq<State>, steps: seq<Step>, i: nat)
    requires IsRun(run, steps) && i < |run|
    ensures Inv(run[i])
    decreases i
  {
    if i > 0 {
      hide Enabled, Apply, Inv;
      RunInv(run, steps, i - 1);
      InvStep(run[i - 1], steps[i - 1]);
    }
  }

  /** A name with queued waiters is never registered, and no waiter is closed twice. */
  lemma QueuedNotRegistered(run: seq<State>, steps: seq<Step>, i: nat)
    requires IsRun(run, steps) && i < |run|
    ensures run[i].entry.waiters != [] ==> run[i].entry.service.None?
    ensures forall w :: 0 <= w < |run[i].waiters| ==> run[i].waiters[w].closes <= 1
  {
    hide Enabled, Apply, IsRun;
    RunInv(run, steps, i);
    forall w | 0 <= w < |run[i].waiters| ensures run[i].waiters[w].closes <= 1 {
      assert WaiterOk(run[i], w);
    }
  }

  /** A registration wakes every queued waiter: each is taken by the registering thread. A
      waiter that is neither queued nor gone nor about to be closed has been closed. */
  lemma AddWakesAll(run: seq<State>, steps: seq<Step>, i: nat, w: nat)
    requires IsRun(run, steps) && i < |run| && w < |run[i].waiters|
    ensures i < |steps| && steps[i].Add? && w in run[i].entry.waiters ==>
      w < |run[i + 1].waiters| && run[i + 1].waiters[w].takers == 1 && run[i + 1].entry.waiters == []
    ensures run[i].entry.service.Some? && run[i].waiters[w].takers == 0 && run[i].waiters[w].gone == 0 ==>
      run[i].waiters[w].closes == 1
  {
    RunInv(run, steps, i);
    assert WaiterOk(run[i], w);
  }

  /** No registration is lost: a client in its select, its watch open, with the name
      registered, has the binder in its slot or a callback on its way. */
  lemma NoLostRegistration(run: seq<State>, steps: seq<Step>, i: nat, c: nat)
    requires IsRun(run, steps) && i < |run| && c < |run[i].clients|
    requires run[i].clients[c].phase == Selecting && run[i].clients[c].open && run[i].entry.service.Some?
    ensures run[i].clients[c].slot.Some? || run[i].clients[c].pending != []
  {
    hide Enabled, Apply, IsRun;
    RunInv(run, steps, i);
    assert ClientOk(run[i], c);
  }

  /** What a wait returns was registered under the name. */
  lemma WaitReturnsRegistered(run: seq<State>, steps: seq<Step>, i: nat, c: nat)
    requires IsRun(run, steps) && i < |run| && c < |run[i].clients| && run[i].clients[c].result.Some?
    ensures run[i].clients[c].result.value in run[i].ever
  {
    hide Enabled, Apply, IsRun;
    RunInv(run, steps, i);
    assert Genuine(run[i], c);
  }
}
