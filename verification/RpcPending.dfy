/** Calls waiting for their replies. A call registers a channel under its request id; the
    reader, a cancelled call or the shutdown takes it out of the map under the lock, and
    closes it afterwards. A call gives its frame back to a pool before it waits, so a call
    that is cancelled reads the id to clear from a frame that may be zero or in other use. */
module RpcPending {
  import opened Bytes
  import opened Common
  import opened Wire

  type Id = nat

  /** What a reply carries: its bytes and its error, if any. */
  datatype Payload = Payload(bytes: seq<byte>, failed: bool)

  // ----- the map of pending calls -----

  datatype Taken = Taken(pending: map<Id, nat>, chan: Option<nat>)

  function TakeOf(pending: map<Id, nat>, id: Id): Taken {
    Taken(pending - {id}, if id in pending then Some(pending[id]) else None)
  }

  /** What a channel has seen: the frames sent on it, and how often it was closed. */
  datatype Wait = Wait(sent: seq<Payload>, closes: nat)

  function Closed(w: Wait): Wait { w.(closes := w.closes + 1) }
  function Sent(w: Wait, p: Payload): Wait { w.(sent := w.sent + [p]) }

  class Table {
    var nextRequest: Id
    var pending: map<Id, nat>
    var waits: seq<Wait>

    /** Every pending call has a channel of its own. */
    predicate Valid() reads this {
      (forall id :: id in pending ==> pending[id] < |waits|)
      && (forall i, j :: i in pending && j in pending && i != j ==> pending[i] != pending[j])
    }

    constructor ()
      ensures Valid() && nextRequest == 0 && pending == map[] && waits == []
    {
      nextRequest, pending, waits := 0, map[], [];
    }

    method Register(oneway: bool) returns (id: Id)
      requires Valid()
      modifies this
      ensures Valid() && id == nextRequest == old(nextRequest) + 1
      ensures oneway ==> pending == old(pending) && waits == old(waits)
      ensures !oneway ==> pending == old(pending)[id := |old(waits)|] && waits == old(waits) + [Wait([], 0)]
    {
      nextRequest := nextRequest + 1;
      id := nextRequest;
      if !oneway {
        pending := pending[id := |waits|];
        waits := waits + [Wait([], 0)];
      }
    }

    method HandleReply(id: Id, p: Payload)
      requires Valid()
      modifies this`pending, this`waits
      ensures Valid()
      ensures var t := TakeOf(old(pending), id);
              pending == t.pending
              && waits == if t.chan.Some? then old(waits)[t.chan.value := Closed(Sent(old(waits)[t.chan.value], p))]
                          else old(waits)
    {
      if id in pending {
        var ch := pending[id];
        pending := pending - {id};
        waits := waits[ch := Sent(waits[ch], p)];
        waits := waits[ch := Closed(waits[ch])];
      } else {
        pending := pending - {id};
      }
    }

    method ClearPending(id: Id)
      requires Valid()
      modifies this`pending, this`waits
      ensures Valid()
      ensures id == 0 ==> pending == old(pending) && waits == old(waits)
      ensures id != 0 ==>
        var t := TakeOf(old(pending), id);
        pending == t.pending
        && waits == if t.chan.Some? then old(waits)[t.chan.value := Closed(old(waits)[t.chan.value])] else old(waits)
    {
      if id == 0 {
        return;
      }
      if id in pending {
        var ch := pending[id];
        pending := pending - {id};
        waits := waits[ch := Closed(waits[ch])];
      } else {
        pending := pending - {id};
      }
    }

    /** Closes each channel of the map once, in any order. */
    method Shutdown()
      requires Valid()
      modifies this`pending, this`waits
      ensures Valid() && pending == map[] && |waits| == |old(waits)|
      ensures forall c :: 0 <= c < |waits| ==>
        waits[c] == if c in old(pending).Values then Closed(old(waits)[c]) else old(waits)[c]
    {
      var taken := pending;
      pending := map[];
      var todo := taken.Keys;
      while todo != {}
        invariant todo <= taken.Keys && |waits| == |old(waits)| && pending == map[]
        invariant forall c :: 0 <= c < |waits| ==>
          waits[c]
          == if exists id :: id in taken && id !in todo && taken[id] == c then Closed(old(waits)[c]) else old(waits)[c]
        decreases |todo|
      {
        var id :| id in todo;
        waits := waits[taken[id] := Closed(waits[taken[id]])];
        todo := todo - {id};
      }
    }
  }

  // ----- every interleaving -----

  /** How far a call has come with the frame it fills: its id is in, its channel is in the
      map, the frame is written, or writing failed. */
  datatype Stage = Filled(oneway: bool) | Listed(chan: nat) | OnWire(wait: Option<nat>) | Failed

  /** Frames are pooled: one that is not in use is zero; one in use belongs to a call, or to
      the answer to a request of the peer and then carries a number of the peer. */
  datatype Use = Free | Calling(stage: Stage) | Answering

  datatype Pooled = Pooled(id: Id, use: Use)

  /** A channel: the request it belongs to and the frame its call has filled; whether the
      call waits for its reply, which it does after it has given the frame back; the id it has
      read from that frame, once it is cancelled, and will clear; threads that
      took the channel out and will close it; payloads a reader that took it out will send
      first; readers that have sent; how often it was closed; what the caller can receive. */
  datatype Chan = Chan(
    id: Id, slot: nat, waiting: bool, clearing: Option<Id>,
    takers: nat, sending: seq<Payload>, sent: nat, closes: nat, buffer: seq<Payload>)

  datatype Frame = Frame(id: Id, payload: Payload)

  datatype State = State(
    next: Id,
    pending: map<Id, nat>,
    chans: seq<Chan>,
    pool: seq<Pooled>,
    requests: set<Id>,        // requests that reached the peer
    answers: set<Frame>,      // replies the peer sent
    wire: seq<Frame>,         // replies not received yet
    returned: set<Frame>)     // what calls have returned

  /** A waiting call whose context ends, or whose connection closes, reads the id from its
      frame (`Cancel`) and clears it later under the lock (`Clear`). */
  datatype Step =
    | Begin(slot: nat, oneway: bool) | Register(slot: nat)
    | Written(slot: nat) | WriteFailed(slot: nat) | Put(slot: nat)
    | Answer(slot: nat, number: Id)
    | PeerReplies(frame: Frame)
    | Receive
    | Send(chan: nat) | CloseSent(chan: nat)
    | Cancel(chan: nat) | Clear(chan: nat) | CloseTaken(chan: nat)
    | Shutdown
    | Return(chan: nat) | Disconnected(chan: nat)

  function Init(): State { State(0, map[], [], [], {}, {}, [], {}) }

  /** Filled and, unless oneway, registered: ready to be written. */
  predicate Ready(u: Use) { u.Calling? && (u.stage == Filled(true) || u.stage.Listed?) }

  predicate Unused(s: State, p: nat) { p <= |s.pool| && (p < |s.pool| ==> s.pool[p].use.Free?) }

  predicate Enabled(s: State, a: Step) {
    match a
    case Begin(p, _) => Unused(s, p)
    case Answer(p, _) => Unused(s, p)
    case Register(p) => p < |s.pool| && s.pool[p].use == Calling(Filled(false))
    case Written(p) => p < |s.pool| && Ready(s.pool[p].use)
    case WriteFailed(p) => p < |s.pool| && Ready(s.pool[p].use)
    case Put(p) =>
      p < |s.pool| && (s.pool[p].use.Answering?
                       || (s.pool[p].use.Calling? && (s.pool[p].use.stage.OnWire? || s.pool[p].use.stage.Failed?)))
    case PeerReplies(f) => f.id in s.requests
    case Receive => s.wire != []
    case Send(c) => c < |s.chans| && s.chans[c].sending != []
    case CloseSent(c) => c < |s.chans| && s.chans[c].sent > 0
    case CloseTaken(c) => c < |s.chans| && s.chans[c].takers > 0
    case Cancel(c) => c < |s.chans| && s.chans[c].waiting
    case Clear(c) => c < |s.chans| && s.chans[c].clearing.Some?
    case Return(c) => c < |s.chans| && s.chans[c].waiting && s.chans[c].buffer != []
    case Disconnected(c) => c < |s.chans| && s.chans[c].waiting && s.chans[c].closes > 0
    case Shutdown => true
  }

  predicate InMap(s: State, c: nat)
    requires c < |s.chans|
  {
    s.chans[c].id in s.pending && s.pending[s.chans[c].id] == c
  }

  function Set(s: State, c: nat, ch: Chan): State
    requires c < |s.chans|
  {
    s.(chans := s.chans[c := ch])
  }

  function Occupy(pool: seq<Pooled>, p: nat, frame: Pooled): seq<Pooled>
    requires p <= |pool|
  {
    if p < |pool| then pool[p := frame] else pool + [frame]
  }

  /** The channel of the call that fills the frame, once it has one. */
  function ChanOf(u: Use): Option<nat> {
    if u.Calling? && u.stage.Listed? then Some(u.stage.chan)
    else if u.Calling? && u.stage.OnWire? then u.stage.wait
    else None
  }

  predicate Bounded(s: State) {
    (forall id :: id in s.pending ==> s.pending[id] < |s.chans|)
    && (forall c :: 0 <= c < |s.chans| ==> s.chans[c].slot < |s.pool|)
    && (forall p :: 0 <= p < |s.pool| && ChanOf(s.pool[p].use).Some? ==> ChanOf(s.pool[p].use).value < |s.chans|)
  }

  function Taker(ch: Chan): Chan { ch.(takers := ch.takers + 1) }

  /** `clearPending`: the thread that takes a channel out will close it. */
  function Cleared(s: State, id: Id): State
    requires Bounded(s)
  {
    var taken := TakeOf(s.pending, id);
    if id == 0 || taken.chan.None? then s
    else Set(s, taken.chan.value, Taker(s.chans[taken.chan.value])).(pending := taken.pending)
  }

  function Registered(s: State, p: nat): State
    requires p < |s.pool|
  {
    var id, c := s.pool[p].id, |s.chans|;
    s.(pending := s.pending[id := c], chans := s.chans + [Chan(id, p, false, None, 0, [], 0, 0, [])],
       pool := s.pool[p := Pooled(id, Calling(Listed(c)))])
  }

  /** `putFrame` zeroes the frame; the call that sent it goes on to wait. */
  function GivenBack(s: State, p: nat): State
    requires Bounded(s) && p < |s.pool|
  {
    var t := s.(pool := s.pool[p := Pooled(0, Free)]);
    var c := ChanOf(s.pool[p].use);
    if c.Some? then Set(t, c.value, s.chans[c.value].(waiting := true)) else t
  }

  function Received(s: State): State
    requires Bounded(s) && s.wire != []
  {
    var f, t := s.wire[0], s.(wire := s.wire[1..]);
    var taken := TakeOf(s.pending, f.id);
    if taken.chan.None? then t
    else
      var ch := s.chans[taken.chan.value];
      Set(t, taken.chan.value, ch.(sending := ch.sending + [f.payload])).(pending := taken.pending)
  }

  function Apply(s: State, a: Step): State
    requires Bounded(s) && Enabled(s, a)
  {
    match a
    case Begin(p, oneway) =>
      s.(next := s.next + 1, pool := Occupy(s.pool, p, Pooled(s.next + 1, Calling(Filled(oneway)))))
    case Answer(p, number) => s.(pool := Occupy(s.pool, p, Pooled(number, Answering)))
    case Register(p) => Registered(s, p)
    case Written(p) =>
      s.(requests := s.requests + {s.pool[p].id},
         pool := s.pool[p := s.pool[p].(use := Calling(OnWire(ChanOf(s.pool[p].use))))])
    case WriteFailed(p) => Cleared(s.(pool := s.pool[p := s.pool[p].(use := Calling(Failed))]), s.pool[p].id)
    case Put(p) => GivenBack(s, p)
    case PeerReplies(f) => s.(wire := s.wire + [f], answers := s.answers + {f})
    case Receive => Received(s)
    case Send(c) =>
      var ch := s.chans[c];
      Set(s, c, ch.(sending := ch.sending[1..], sent := ch.sent + 1, buffer := ch.buffer + [ch.sending[0]]))
    case CloseSent(c) => Set(s, c, s.chans[c].(sent := s.chans[c].sent - 1, closes := s.chans[c].closes + 1))
    case Cancel(c) =>
      Set(s, c, s.chans[c].(waiting := false, clearing := Some(s.pool[s.chans[c].slot].id)))
    case Clear(c) => Cleared(Set(s, c, s.chans[c].(clearing := None)), s.chans[c].clearing.value)
    case CloseTaken(c) => Set(s, c, s.chans[c].(takers := s.chans[c].takers - 1, closes := s.chans[c].closes + 1))
    case Shutdown =>
      s.(pending := map[],
         chans := seq(|s.chans|, c requires 0 <= c < |s.chans| =>
                        if InMap(s, c) then Taker(s.chans[c]) else s.chans[c]))
    case Return(c) =>
      var ch := s.chans[c];
      Set(s, c, ch.(waiting := false, buffer := ch.buffer[1..])).(returned := s.returned + {Frame(ch.id, ch.buffer[0])})
    case Disconnected(c) => Set(s, c, s.chans[c].(waiting := false))
  }

  // -- what every step keeps --

  /** Exactly one of: the map, one thread that took it out, closed. */
  predicate Owned(s: State, c: nat)
    requires c < |s.chans|
  {
    var ch := s.chans[c];
    Flag(InMap(s, c)) + ch.takers + |ch.sending| + ch.sent + ch.closes == 1
  }

  /** Whatever is on its way to a call was sent by the peer as the reply to that request. */
  predicate Genuine(s: State, c: nat)
    requires c < |s.chans|
  {
    var ch := s.chans[c];
    0 < ch.id <= s.next
    && |ch.buffer| <= ch.sent + ch.closes
    && (forall i :: 0 <= i < |ch.sending| ==> Frame(ch.id, ch.sending[i]) in s.answers)
    && (forall i :: 0 <= i < |ch.buffer| ==> Frame(ch.id, ch.buffer[i]) in s.answers)
  }

  ghost predicate MapOk(s: State) {
    forall id :: id in s.pending ==> id <= s.next && s.pending[id] < |s.chans| && s.chans[s.pending[id]].id == id
  }

  ghost predicate FramesOk(s: State) {
    (forall i :: 0 <= i < |s.wire| ==> s.wire[i] in s.answers)
    && (forall f :: f in s.returned ==> f in s.answers)
    && (forall f :: f in s.answers ==> f.id in s.requests)
  }

  /** A frame that is not in use is zero; one a call fills carries the number of that call. */
  predicate PooledOk(s: State, p: nat)
    requires p < |s.pool|
  {
    var f := s.pool[p];
    (f.use.Free? ==> f.id == 0) && (f.use.Calling? ==> 0 < f.id <= s.next)
    && (ChanOf(f.use).Some? ==>
          ChanOf(f.use).value < |s.chans|
          && s.chans[ChanOf(f.use).value].id == f.id && s.chans[ChanOf(f.use).value].slot == p)
  }

  /** No two calls have the same number. */
  predicate Apart(s: State, p: nat, q: nat)
    requires p < |s.pool| && q < |s.pool|
  {
    p != q && s.pool[p].use.Calling? && s.pool[q].use.Calling? ==> s.pool[p].id != s.pool[q].id
  }

  /** A call that still fills its frame does not wait; when it waits, any call that has the
      frame now is a later one. */
  predicate FillingOk(s: State, p: nat, c: nat)
    requires p < |s.pool| && c < |s.chans|
  {
    s.pool[p].use.Calling? ==>
      (s.chans[c].id == s.pool[p].id ==> s.chans[c].slot == p && !s.chans[c].waiting && !s.pool[p].use.stage.Filled?)
      && (s.chans[c].waiting && s.chans[c].slot == p ==> s.pool[p].id > s.chans[c].id)
  }

  ghost predicate PoolOk(s: State) {
    (forall p :: 0 <= p < |s.pool| ==> PooledOk(s, p))
    && (forall p, q :: 0 <= p < |s.pool| && 0 <= q < |s.pool| ==> Apart(s, p, q))
    && (forall p, c :: 0 <= p < |s.pool| && 0 <= c < |s.chans| ==> FillingOk(s, p, c))
  }

  ghost predicate Inv(s: State) {
    MapOk(s) && FramesOk(s) && PoolOk(s)
    && (forall c :: 0 <= c < |s.chans| ==> Owned(s, c))
    && (forall c :: 0 <= c < |s.chans| ==> Genuine(s, c))
  }

  lemma MapStep(s: State, a: Step)
    requires MapOk(s) && Bounded(s) && Enabled(s, a)
    requires a.Register? ==> s.pool[a.slot].id <= s.next
    ensures MapOk(Apply(s, a))
  {
  }

  lemma BoundedStep(s: State, a: Step)
    requires Bounded(s) && Enabled(s, a)
    ensures Bounded(Apply(s, a))
  {
    hide Cleared, Received;
    match a
    case WriteFailed(p) => BoundedTaken(s.(pool := s.pool[p := s.pool[p].(use := Calling(Failed))]), s.pool[p].id);
    case Clear(d) => BoundedTaken(Set(s, d, s.chans[d].(clearing := None)), s.chans[d].clearing.value);
    case Receive => BoundedTaken(s, 0);
    case _ =>
  }

  lemma BoundedTaken(s: State, id: Id)
    requires Bounded(s)
    ensures Bounded(Cleared(s, id)) && (s.wire != [] ==> Bounded(Received(s)))
  {
  }

  lemma OwnedStep(s: State, a: Step, c: nat)
    requires MapOk(s) && Bounded(s) && Enabled(s, a) && c < |Apply(s, a).chans|
    requires c < |s.chans| ==> Owned(s, c) && s.chans[c].id > 0
    requires a.Register? && c < |s.chans| ==> s.chans[c].id != s.pool[a.slot].id
    ensures Owned(Apply(s, a), c)
  {
    hide Cleared, Received;
    if c >= |s.chans| {
      NewChan(s, a, c);
      return;
    }
    match a
    case WriteFailed(p) => OwnedCleared(s.(pool := s.pool[p := s.pool[p].(use := Calling(Failed))]), s.pool[p].id, c);
    case Clear(d) => OwnedCleared(Set(s, d, s.chans[d].(clearing := None)), s.chans[d].clearing.value, c);
    case Receive => OwnedReceived(s, c);
    case _ =>
  }

  lemma OwnedCleared(s: State, id: Id, c: nat)
    requires MapOk(s) && Bounded(s) && c < |s.chans| && Owned(s, c)
    ensures |Cleared(s, id).chans| == |s.chans| && Owned(Cleared(s, id), c)
  {
  }

  lemma OwnedReceived(s: State, c: nat)
    requires MapOk(s) && Bounded(s) && s.wire != [] && c < |s.chans| && Owned(s, c)
    ensures |Received(s).chans| == |s.chans| && Owned(Received(s), c)
  {
  }

  lemma GenuineStep(s: State, a: Step, c: nat)
    requires MapOk(s) && FramesOk(s) && PoolOk(s) && Bounded(s) && Enabled(s, a) && c < |Apply(s, a).chans|
    requires c < |s.chans| ==> Owned(s, c) && Genuine(s, c)
    ensures Genuine(Apply(s, a), c)
  {
    hide Cleared, Received, PoolOk, MapOk, FramesOk;
    if c >= |s.chans| {
      NewChan(s, a, c);
      RegisterNew(s, a.slot);
      return;
    }
    match a
    case WriteFailed(p) => GenuineCleared(s.(pool := s.pool[p := s.pool[p].(use := Calling(Failed))]), s.pool[p].id, c);
    case Clear(d) => GenuineCleared(Set(s, d, s.chans[d].(clearing := None)), s.chans[d].clearing.value, c);
    case Receive => GenuineReceived(s, c);
    case _ =>
  }

  lemma GenuineCleared(s: State, id: Id, c: nat)
    requires Bounded(s) && c < |s.chans| && Genuine(s, c)
    ensures |Cleared(s, id).chans| == |s.chans| && Genuine(Cleared(s, id), c)
  {
  }

  lemma GenuineReceived(s: State, c: nat)
    requires MapOk(s) && FramesOk(s) && Bounded(s) && s.wire != [] && c < |s.chans| && Genuine(s, c)
    ensures |Received(s).chans| == |s.chans| && Genuine(Received(s), c)
  {
    assert s.wire[0] in s.answers;
  }

  lemma FramesStep(s: State, a: Step)
    requires FramesOk(s) && Bounded(s) && Enabled(s, a)
    requires a.Return? ==> Genuine(s, a.chan)
    ensures FramesOk(Apply(s, a))
  {
  }

  /** What a step does to a channel, as far as the pool is concerned. */
  lemma ChanStep(s: State, a: Step, c: nat)
    requires Bounded(s) && Enabled(s, a) && c < |s.chans|
    ensures var t := Apply(s, a);
            c < |t.chans| && t.chans[c].id == s.chans[c].id && t.chans[c].slot == s.chans[c].slot
            && (t.chans[c].waiting ==> s.chans[c].waiting || (a.Put? && ChanOf(s.pool[a.slot].use) == Some(c)))
  {
  }

  /** What a step does to a frame of the pool. */
  lemma PoolStep(s: State, a: Step, p: nat)
    requires Bounded(s) && Enabled(s, a) && p < |Apply(s, a).pool|
    ensures var t := Apply(s, a);
            |s.chans| <= |t.chans| && |s.pool| <= |t.pool| && s.next <= t.next
            && if a.Begin? && a.slot == p then
                 t.pool[p] == Pooled(s.next + 1, Calling(Filled(a.oneway))) && t.next == s.next + 1
               else if a.Answer? && a.slot == p then t.pool[p].use.Answering?
               else p < |s.pool| && if a.Put? && a.slot == p then t.pool[p] == Pooled(0, Free)
                                    else SameUse(s, a, t, p)
  {
  }

  /** The frame stays with whom it was; a call may have come further with it. */
  predicate SameUse(s: State, a: Step, t: State, p: nat)
    requires p < |s.pool| && p < |t.pool|
  {
    var was, now := s.pool[p], t.pool[p];
    now.id == was.id && (now.use.Calling? <==> was.use.Calling?) && (now.use.Free? <==> was.use.Free?)
    && (now.use.Calling? && now.use.stage.Filled? ==> now.use == was.use && a != Register(p))
    && (ChanOf(now.use).Some? ==>
          if a == Register(p) then ChanOf(now.use).value == |s.chans| else ChanOf(now.use) == ChanOf(was.use))
  }

  lemma NewChan(s: State, a: Step, c: nat)
    requires Bounded(s) && Enabled(s, a) && |s.chans| <= c < |Apply(s, a).chans|
    ensures a.Register? && c == |s.chans|
    ensures Apply(s, a).chans[c].id == s.pool[a.slot].id && Apply(s, a).chans[c].slot == a.slot
      && !Apply(s, a).chans[c].waiting
  {
  }

  lemma PooledOkStep(s: State, a: Step, p: nat)
    requires PoolOk(s) && Bounded(s) && Enabled(s, a) && p < |Apply(s, a).pool|
    ensures PooledOk(Apply(s, a), p)
  {
    hide Apply, Enabled;
    PoolStep(s, a, p);
    var t := Apply(s, a);
    if p < |s.pool| {
      assert PooledOk(s, p);
    }
    if ChanOf(t.pool[p].use).Some? {
      var c := ChanOf(t.pool[p].use).value;
      if a == Register(p) {
        RegisterGrows(s, p);
        NewChan(s, a, c);
      } else {
        ChanStep(s, a, c);
      }
    }
  }

  lemma RegisterGrows(s: State, p: nat)
    requires Bounded(s) && Enabled(s, Register(p))
    ensures |Apply(s, Register(p)).chans| == |s.chans| + 1
  {
  }

  lemma ApartStep(s: State, a: Step, p: nat, q: nat)
    requires PoolOk(s) && Bounded(s) && Enabled(s, a) && p < |Apply(s, a).pool| && q < |Apply(s, a).pool|
    ensures Apart(Apply(s, a), p, q)
  {
    hide Apply, Enabled;
    PoolStep(s, a, p);
    PoolStep(s, a, q);
    if p < |s.pool| && q < |s.pool| {
      assert Apart(s, p, q);
    }
    if p < |s.pool| { assert PooledOk(s, p); }
    if q < |s.pool| { assert PooledOk(s, q); }
  }

  lemma FillingStep(s: State, a: Step, p: nat, c: nat)
    requires PoolOk(s) && Bounded(s) && Enabled(s, a) && p < |Apply(s, a).pool| && c < |Apply(s, a).chans|
    requires c < |s.chans| ==> Genuine(s, c)
    ensures FillingOk(Apply(s, a), p, c)
  {
    hide Apply, Enabled;
    PoolStep(s, a, p);
    if p < |s.pool| && c < |s.chans| {
      assert FillingOk(s, p, c);
    }
    if c < |s.chans| {
      ChanStep(s, a, c);
      if a.Put? {
        PutSlot(s, a.slot);
      }
      if a.Put? && ChanOf(s.pool[a.slot].use) == Some(c) {
        assert PooledOk(s, a.slot);
        if p < |s.pool| { assert Apart(s, p, a.slot); }
      }
    } else {
      NewChan(s, a, c);
      RegisterSlot(s, a.slot);
      assert PooledOk(s, a.slot);
      if p < |s.pool| { assert Apart(s, p, a.slot); }
    }
  }

  lemma PutSlot(s: State, p: nat)
    requires Enabled(s, Put(p))
    ensures p < |s.pool|
  {
  }

  lemma RegisterSlot(s: State, p: nat)
    requires Enabled(s, Register(p))
    ensures p < |s.pool| && s.pool[p].use == Calling(Filled(false))
  {
  }

  lemma InvStep(s: State, a: Step)
    requires Inv(s) && Bounded(s) && Enabled(s, a)
    ensures Inv(Apply(s, a)) && Bounded(Apply(s, a))
  {
    hide Apply, Owned, Genuine, MapOk, FramesOk, Bounded, PooledOk, Apart, FillingOk;
    var t := Apply(s, a);
    if a.Register? { RegisterNew(s, a.slot); }
    MapStep(s, a);
    BoundedStep(s, a);
    if a.Return? { ReturnChan(s, a.chan); }
    FramesStep(s, a);
    forall c | 0 <= c < |t.chans| ensures Owned(t, c) && Genuine(t, c) {
      if c < |s.chans| { GenuineId(s, c); }
      OwnedStep(s, a, c);
      GenuineStep(s, a, c);
    }
    forall p | 0 <= p < |t.pool| ensures PooledOk(t, p) {
      PooledOkStep(s, a, p);
    }
    forall p, q | 0 <= p < |t.pool| && 0 <= q < |t.pool| ensures Apart(t, p, q) {
      ApartStep(s, a, p, q);
    }
    forall p, c | 0 <= p < |t.pool| && 0 <= c < |t.chans| ensures FillingOk(t, p, c) {
      FillingStep(s, a, p, c);
    }
  }

  lemma GenuineId(s: State, c: nat)
    requires c < |s.chans| && Genuine(s, c)
    ensures 0 < s.chans[c].id <= s.next
  {
  }

  lemma RegisterNew(s: State, p: nat)
    requires PoolOk(s) && Enabled(s, Register(p))
    ensures p < |s.pool| && 0 < s.pool[p].id <= s.next
    ensures forall c :: 0 <= c < |s.chans| ==> s.chans[c].id != s.pool[p].id
  {
    assert PooledOk(s, p);
    forall c | 0 <= c < |s.chans| ensures s.chans[c].id != s.pool[p].id {
      assert FillingOk(s, p, c);
    }
  }

  lemma ReturnChan(s: State, c: nat)
    requires Enabled(s, Return(c))
    ensures c < |s.chans|
  {
  }

  ghost predicate IsRun(run: seq<State>, steps: seq<Step>) {
    |run| == |steps| + 1 && run[0] == Init()
    && forall i :: 0 <= i < |steps| ==>
         Bounded(run[i]) && Enabled(run[i], steps[i]) && run[i + 1] == Apply(run[i], steps[i])
  }

  lemma {:induction false} RunInv(run: seq<State>, steps: seq<Step>, i: nat)
    requires IsRun(run, steps) && i < |run|
    ensures Inv(run[i]) && Bounded(run[i])
    decreases i
  {
    if i > 0 {
      hide Enabled, Apply;
      RunInv(run, steps, i - 1);
      InvStep(run[i - 1], steps[i - 1]);
    }
  }

  /** In every interleaving, whoever is about to close a channel finds it open, and whoever
      is about to send finds it open and empty: no channel is closed twice, sent to after it
      was closed, or blocks the reader. */
  lemma ChannelsAreSafe(run: seq<State>, steps: seq<Step>, i: nat, c: nat)
    requires IsRun(run, steps) && i < |run| && c < |run[i].chans|
    ensures run[i].chans[c].closes <= 1
    ensures run[i].chans[c].takers + run[i].chans[c].sent > 0 ==> run[i].chans[c].closes == 0
    ensures run[i].chans[c].sending != [] ==> run[i].chans[c].closes == 0 && run[i].chans[c].buffer == []
  {
    hide Enabled, Apply, IsRun;
    RunInv(run, steps, i);
    assert Owned(run[i], c) && Genuine(run[i], c);
  }

  /** A call that returns a parcel returns a reply of the peer to that very request. */
  lemma ReturnsItsReply(run: seq<State>, steps: seq<Step>, i: nat, f: Frame)
    requires IsRun(run, steps) && i < |run| && f in run[i].returned
    ensures f in run[i].answers && f.id in run[i].requests
  {
    hide Enabled, Apply, IsRun;
    RunInv(run, steps, i);
  }

  lemma OutStaysOut(s: State, a: Step, c: nat)
    requires Bounded(s) && Enabled(s, a) && c < |s.chans| && !InMap(s, c)
    ensures c < |Apply(s, a).chans| && !InMap(Apply(s, a), c)
  {
  }

  lemma ShutdownTakes(s: State, c: nat)
    requires Bounded(s) && c < |s.chans|
    ensures c < |Apply(s, Shutdown).chans| && !InMap(Apply(s, Shutdown), c)
  {
  }

  lemma {:induction false} OutAfterShutdown(run: seq<State>, steps: seq<Step>, i: nat, j: nat, c: nat)
    requires IsRun(run, steps) && i < j < |run| && steps[i] == Shutdown && c < |run[i].chans|
    ensures c < |run[j].chans| && !InMap(run[j], c)
    decreases j
  {
    hide Enabled, Apply, InMap, Bounded;
    if j == i + 1 {
      ShutdownTakes(run[i], c);
    } else {
      OutAfterShutdown(run, steps, i, j - 1, c);
      OutStaysOut(run[j - 1], steps[j - 1], c);
    }
  }

  /** After a shutdown no call that was registered before is ever in the map again, and once
      every thread that took a channel has closed it none of them still waits. */
  lemma NobodyWaits(run: seq<State>, steps: seq<Step>, i: nat, j: nat, c: nat)
    requires IsRun(run, steps) && i < j < |run| && steps[i] == Shutdown && c < |run[i].chans|
    ensures c < |run[j].chans| && !InMap(run[j], c)
    ensures var ch := run[j].chans[c]; ch.takers == 0 && ch.sending == [] && ch.sent == 0 ==> ch.closes == 1
  {
    hide Enabled, Apply, IsRun;
    OutAfterShutdown(run, steps, i, j, c);
    RunInv(run, steps, j);
    assert Owned(run[j], c);
  }

  // ----- what a cancelled call removes -----

  /** The frame a cancelled call reads the id from, which it has given back. */
  function ReadFrame(s: State, c: nat): Pooled
    requires Bounded(s) && c < |s.chans|
  {
    s.pool[s.chans[c].slot]
  }

  lemma ClearEffect(s: State, c: nat)
    requires Bounded(s) && Enabled(s, Clear(c))
    ensures var id := s.chans[c].clearing.value;
            Apply(s, Clear(c)).pending == if id == 0 then s.pending else s.pending - {id}
  {
  }

  lemma ClearingStep(s: State, a: Step, c: nat)
    requires Bounded(s) && Enabled(s, a) && c < |Apply(s, a).chans| && Apply(s, a).chans[c].clearing.Some?
    ensures c < |s.chans| && Apply(s, a).chans[c].id == s.chans[c].id
    ensures if a == Cancel(c) then s.chans[c].waiting && Apply(s, a).chans[c].clearing == Some(ReadFrame(s, c).id)
            else s.chans[c].clearing == Apply(s, a).chans[c].clearing
  {
  }

  /** What a call will clear is what it read when it was cancelled. */
  lemma {:induction false} Remembered(run: seq<State>, steps: seq<Step>, j: nat, c: nat) returns (i: nat)
    requires IsRun(run, steps) && j < |run| && c < |run[j].chans| && run[j].chans[c].clearing.Some?
    ensures i < j && steps[i] == Cancel(c) && c < |run[i].chans| && run[i].chans[c].waiting
    ensures run[i].chans[c].id == run[j].chans[c].id && Bounded(run[i])
    ensures run[j].chans[c].clearing == Some(ReadFrame(run[i], c).id)
    decreases j
  {
    hide Enabled, Apply, Bounded;
    if j == 0 {
      assert false;
    }
    ClearingStep(run[j - 1], steps[j - 1], c);
    if steps[j - 1] == Cancel(c) {
      i := j - 1;
    } else {
      i := Remembered(run, steps, j - 1, c);
    }
  }

  /** In every run, which entries a cancelled call removes when it clears the id it read, with
      whatever steps of other threads between. A frame that nobody had taken up again read
      zero, and nothing is removed. A frame that a later call had filled named that call, and
      it is the later call that loses its entry. The call's own entry goes if and only if the
      frame carried the answer to a request of the peer that happens to have the same number. */
  lemma CancelRemovesIff(run: seq<State>, steps: seq<Step>, j: nat, c: nat) returns (i: nat)
    requires IsRun(run, steps) && j < |steps| && steps[j] == Clear(c)
    ensures i < j && steps[i] == Cancel(c) && Bounded(run[i]) && c < |run[i].chans| && c < |run[j].chans|
    ensures run[i].chans[c].id == run[j].chans[c].id != 0
    ensures var own, read := run[i].chans[c].id, ReadFrame(run[i], c);
            (read.use.Free? ==> run[j + 1].pending == run[j].pending)
            && (read.use.Calling? ==> own < read.id <= run[i].next && run[j + 1].pending == run[j].pending - {read.id})
            && (own in run[j].pending ==> (own !in run[j + 1].pending <==> read.use.Answering? && read.id == own))
  {
    hide Apply;
    i := Remembered(run, steps, j, c);
    RunInv(run, steps, i);
    var s := run[i];
    assert Genuine(s, c) && PooledOk(s, s.chans[c].slot) && FillingOk(s, s.chans[c].slot, c);
    ClearEffect(run[j], c);
  }

  /** A call whose write fails still has its frame, and always removes its own entry. */
  lemma FailedWriteRemoves(run: seq<State>, steps: seq<Step>, i: nat, p: nat)
    requires IsRun(run, steps) && i < |steps| && steps[i] == WriteFailed(p)
    ensures p < |run[i].pool| && run[i].pool[p].id != 0
    ensures run[i + 1].pending == run[i].pending - {run[i].pool[p].id}
  {
    RunInv(run, steps, i);
    assert PooledOk(run[i], p);
  }

  // -- two runs --

  /** Two calls or one, on one frame: what matters of a state on the way. */
  predicate At(s: State, next: Id, pending: map<Id, nat>, frame: Pooled) {
    s.next == next && s.pending == pending && s.pool == [frame] && |s.chans| <= 2
    && (forall c :: 0 <= c < |s.chans| ==> s.chans[c].slot == 0 && s.chans[c].id == c + 1)
  }

  lemma FirstBegin(s: State) returns (t: State)
    requires s == Init()
    ensures Bounded(s) && Enabled(s, Begin(0, false)) && t == Apply(s, Begin(0, false))
    ensures At(t, 1, map[], Pooled(1, Calling(Filled(false)))) && t.chans == []
  {
    t := Apply(s, Begin(0, false));
  }

  lemma OneRegister(s: State, n: Id) returns (t: State)
    requires 1 <= n <= 2 && At(s, n, s.pending, Pooled(n, Calling(Filled(false)))) && |s.chans| == n - 1
    requires Bounded(s)
    ensures Enabled(s, Register(0)) && t == Apply(s, Register(0))
    ensures At(t, n, s.pending[n := n - 1], Pooled(n, Calling(Listed(n - 1)))) && Bounded(t)
    ensures t.chans == s.chans + [Chan(n, 0, false, None, 0, [], 0, 0, [])]
  {
    t := Apply(s, Register(0));
  }

  lemma OneWritten(s: State) returns (t: State)
    requires At(s, 1, map[1 := 0], Pooled(1, Calling(Listed(0)))) && |s.chans| == 1 && Bounded(s)
    ensures Enabled(s, Written(0)) && t == Apply(s, Written(0))
    ensures At(t, 1, map[1 := 0], Pooled(1, Calling(OnWire(Some(0))))) && t.chans == s.chans && Bounded(t)
  {
    t := Apply(s, Written(0));
  }

  lemma OnePut(s: State) returns (t: State)
    requires At(s, 1, map[1 := 0], Pooled(1, Calling(OnWire(Some(0))))) && |s.chans| == 1 && Bounded(s)
    ensures Enabled(s, Put(0)) && t == Apply(s, Put(0))
    ensures At(t, 1, map[1 := 0], Pooled(0, Free)) && |t.chans| == 1 && t.chans[0].waiting && Bounded(t)
  {
    t := Apply(s, Put(0));
  }

  lemma SecondBegin(s: State) returns (t: State)
    requires At(s, 1, map[1 := 0], Pooled(0, Free)) && |s.chans| == 1 && s.chans[0].waiting && Bounded(s)
    ensures Enabled(s, Begin(0, false)) && t == Apply(s, Begin(0, false))
    ensures At(t, 2, map[1 := 0], Pooled(2, Calling(Filled(false)))) && t.chans == s.chans && Bounded(t)
  {
    t := Apply(s, Begin(0, false));
  }

  lemma FirstCancelled(s: State, next: Id, pending: map<Id, nat>, frame: Pooled) returns (t: State)
    requires At(s, next, pending, frame) && Bounded(s) && |s.chans| > 0 && s.chans[0].waiting
    ensures Enabled(s, Cancel(0)) && t == Apply(s, Cancel(0)) && Bounded(t)
    ensures t.pending == pending && |t.chans| > 0 && t.chans[0].clearing == Some(frame.id)
  {
    t := Apply(s, Cancel(0));
    BoundedStep(s, Cancel(0));
  }

  lemma FirstClears(s: State) returns (t: State)
    requires Bounded(s) && |s.chans| > 0 && s.chans[0].clearing.Some?
    ensures Enabled(s, Clear(0)) && t == Apply(s, Clear(0))
    ensures var id := s.chans[0].clearing.value; t.pending == if id == 0 then s.pending else s.pending - {id}
  {
    t := Apply(s, Clear(0));
    ClearEffect(s, 0);
  }

  /** A call waits, having given its frame back. */
  lemma OneCallWaits() returns (run: seq<State>, steps: seq<Step>)
    ensures steps == [Begin(0, false), Register(0), Written(0), Put(0)] && IsRun(run, steps) && |run| == 5
    ensures Bounded(run[4]) && At(run[4], 1, map[1 := 0], Pooled(0, Free)) && |run[4].chans| == 1
      && run[4].chans[0].waiting
  {
    hide Apply, Enabled, Init, At, Bounded;
    var s0 := Init();
    var s1 := FirstBegin(s0);
    StartBounded(s1);
    var s2 := OneRegister(s1, 1);
    var s3 := OneWritten(s2);
    var s4 := OnePut(s3);
    run, steps := [s0, s1, s2, s3, s4], [Begin(0, false), Register(0), Written(0), Put(0)];
    assert forall i :: 0 <= i < 4 ==>
      Bounded(run[i]) && Enabled(run[i], steps[i]) && run[i + 1] == Apply(run[i], steps[i]);
  }

  lemma StartBounded(s: State)
    requires At(s, 1, map[], Pooled(1, Calling(Filled(false)))) && s.chans == []
    ensures Bounded(s) && s.pending == map[]
  {
  }

  /** The own entry stays: a single call is cancelled, and its entry is still there. */
  lemma OwnEntryStays() returns (run: seq<State>, steps: seq<Step>)
    ensures steps == [Begin(0, false), Register(0), Written(0), Put(0), Cancel(0), Clear(0)] && IsRun(run, steps)
    ensures run[6].pending == map[1 := 0]
  {
    hide Apply, Enabled, Init, At, Bounded;
    run, steps := OneCallWaits();
    var s5 := FirstCancelled(run[4], 1, map[1 := 0], Pooled(0, Free));
    run, steps := Grown(run, steps, Cancel(0), s5);
    var s6 := FirstClears(s5);
    run, steps := Grown(run, steps, Clear(0), s6);
  }

  /** Another entry is taken: a second call fills the same frame, and cancelling the first
      removes the entry of the second. */
  lemma OtherEntryTaken() returns (run: seq<State>, steps: seq<Step>)
    ensures steps
      == [Begin(0, false), Register(0), Written(0), Put(0), Begin(0, false), Register(0), Cancel(0), Clear(0)]
    ensures IsRun(run, steps) && run[7].pending == map[1 := 0, 2 := 1] && run[8].pending == map[1 := 0]
  {
    hide Apply, Enabled, Init, At, Bounded;
    run, steps := OneCallWaits();
    var s5 := SecondBegin(run[4]);
    run, steps := Grown(run, steps, Begin(0, false), s5);
    PendingAt(s5, 2, map[1 := 0], Pooled(2, Calling(Filled(false))));
    var s6 := OneRegister(s5, 2);
    run, steps := Grown(run, steps, Register(0), s6);
    PendingAt(s6, 2, map[1 := 0, 2 := 1], Pooled(2, Calling(Listed(1))));
    var s7 := FirstCancelled(s6, 2, map[1 := 0, 2 := 1], Pooled(2, Calling(Listed(1))));
    run, steps := Grown(run, steps, Cancel(0), s7);
    var s8 := FirstClears(s7);
    run, steps := Grown(run, steps, Clear(0), s8);
    assert map[1 := 0, 2 := 1] - {2} == map[1 := 0];
  }

  lemma PendingAt(s: State, next: Id, pending: map<Id, nat>, frame: Pooled)
    requires At(s, next, pending, frame)
    ensures s.pending == pending
  {
  }

  lemma Grown(run: seq<State>, steps: seq<Step>, a: Step, t: State) returns (run': seq<State>, steps': seq<Step>)
    requires IsRun(run, steps) && Bounded(run[|steps|]) && Enabled(run[|steps|], a) && t == Apply(run[|steps|], a)
    ensures run' == run + [t] && steps' == steps + [a] && IsRun(run', steps')
  {
    hide Apply, Enabled, Init, Bounded;
    run', steps' := run + [t], steps + [a];
  }
}
