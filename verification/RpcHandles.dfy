/** Objects that cross an RPC session. Each side hands out handles of its own parity, keeps
    what it handed out and what it was given, and resolves a handle it handed out to the
    local handler again. */
module RpcHandles {
  import opened Bytes
  import opened Common
  import opened Wire

  const SERVICE_MANAGER: uint32 := 1
  const CLIENT_START: uint32 := 2
  const SERVER_START: uint32 := 3

  type Handler = nat

  datatype Binder = Local(handle: uint32, handler: Handler) | Remote(handle: uint32)

  /** One end of the session. `made` counts the registrations. */
  datatype End = End(next: uint32, exports: map<uint32, Handler>, imports: set<uint32>, made: nat)

  function Next(h: uint32): uint32 { (h as int + 2) % WRAP }

  function RegisterOf(e: End, x: Handler): End {
    e.(next := Next(e.next), exports := e.exports[e.next := x], made := e.made + 1)
  }

  datatype Kind = NullBinder | StrongBinder | FileDescriptor

  datatype Object = Object(kind: Kind, handle: uint32)

  /** An object may be sent if it is a binder this session knows. */
  predicate Sendable(e: End, o: Object) {
    match o.kind
    case NullBinder => true
    case FileDescriptor => false
    case StrongBinder => o.handle != 0 && (o.handle in e.exports || o.handle in e.imports)
  }

  function ResolveOf(e: End, h: uint32): (End, Binder) {
    if h in e.exports then (e, Local(h, e.exports[h])) else (e.(imports := e.imports + {h}), Remote(h))
  }

  class Session {
    var nextExportID: uint32
    var exports: map<uint32, Handler>
    var imports: set<uint32>
    ghost var made: nat

    ghost function Model(): End
      reads this
    {
      End(nextExportID, exports, imports, made)
    }

    constructor (server: bool, manager: Handler)
      ensures Model() == Start(server, manager)
    {
      nextExportID, exports, imports, made := CLIENT_START, map[], {}, 0;
      if server {
        nextExportID := SERVER_START;
        exports := map[SERVICE_MANAGER := manager];
      }
    }

    method RegisterLocalHandler(x: Handler) returns (b: Binder)
      modifies this
      ensures Model() == RegisterOf(old(Model()), x) && b == Local(old(nextExportID), x)
    {
      var handle := nextExportID;
      nextExportID := (nextExportID as int + 2) % WRAP;
      exports := exports[handle := x];
      made := made + 1;
      return Local(handle, x);
    }

    method PrepareParcel(objects: seq<Object>) returns (ok: bool)
      ensures ok <==> forall i :: 0 <= i < |objects| ==> Sendable(Model(), objects[i])
    {
      var i := 0;
      while i < |objects|
        invariant 0 <= i <= |objects|
        invariant forall j :: 0 <= j < i ==> Sendable(Model(), objects[j])
      {
        var o := objects[i];
        match o.kind {
          case FileDescriptor =>
            assert !Sendable(Model(), objects[i]);
            return false;
          case StrongBinder =>
            if o.handle == 0 || (o.handle !in exports && o.handle !in imports) {
              assert !Sendable(Model(), objects[i]);
              return false;
            }
          case NullBinder =>
        }
        i := i + 1;
      }
      return true;
    }

    method ResolveObject(h: uint32) returns (b: Binder)
      modifies this`imports
      ensures (Model(), b) == ResolveOf(old(Model()), h)
    {
      if h in exports {
        return Local(h, exports[h]);
      }
      imports := imports + {h};
      return Remote(h);
    }
  }

  function Start(server: bool, manager: Handler): End {
    if server then End(SERVER_START, map[SERVICE_MANAGER := manager], {}, 0) else End(CLIENT_START, map[], {}, 0)
  }

  // ----- two ends -----

  datatype Side = Server | Client

  function Other(a: Side): Side { if a == Server then Client else Server }

  /** `sent[a]` are the handles of the objects that `a` has sent; frames arrive in order, but
      an object is resolved only when it is read. */
  datatype State = State(ends: map<Side, End>, sent: map<Side, set<uint32>>)

  predicate Whole(s: State) { forall a: Side :: a in s.ends && a in s.sent }

  datatype Step =
    | Register(side: Side, handler: Handler)
    | Send(side: Side, handle: uint32)
    | Resolve(side: Side, handle: uint32)

  function Init(manager: Handler): State {
    State(map[Server := Start(true, manager), Client := Start(false, manager)], map[Server := {}, Client := {}])
  }

  predicate Enabled(s: State, a: Step)
    requires Whole(s)
  {
    match a
    case Register(_, _) => true
    case Send(side, h) => Sendable(s.ends[side], Object(StrongBinder, h))
    case Resolve(side, h) => h in s.sent[Other(side)]
  }

  function Apply(s: State, a: Step): State
    requires Whole(s) && Enabled(s, a)
  {
    match a
    case Register(side, x) => s.(ends := s.ends[side := RegisterOf(s.ends[side], x)])
    case Send(side, h) => s.(sent := s.sent[side := s.sent[side] + {h}])
    case Resolve(side, h) => s.(ends := s.ends[side := ResolveOf(s.ends[side], h).0])
  }

  function Parity(a: Side): nat { if a == Server then 1 else 0 }

  ghost predicate SideOk(s: State, a: Side)
    requires Whole(s)
  {
    var mine, theirs := s.ends[a], s.ends[Other(a)];
    mine.next % 2 == Parity(a)
    && (forall h :: h in mine.exports ==> h % 2 == Parity(a))
    && (forall h :: h in mine.imports ==> h in theirs.exports)
    && (forall h :: h in s.sent[a] ==> h in mine.exports || h in theirs.exports)
  }

  function First(a: Side): uint32 { if a == Server then SERVER_START else CLIENT_START }

  /** The lowest handle of a side: the service manager's, or the first that is handed out. */
  function Lowest(a: Side): uint32 { if a == Server then SERVICE_MANAGER else CLIENT_START }

  /** After this many registrations the counter is back at the lowest handle. */
  function Limit(a: Side): nat { (WRAP + Lowest(a) - First(a)) / 2 }

  /** Where a handle stands in the order in which the counter gives them. */
  function Slot(a: Side, h: uint32): nat { if h < Lowest(a) then h + WRAP else h }

  /** The counter after any number of registrations, and exactly the handles it has given. */
  ghost predicate Counted(e: End, a: Side) {
    e.next == (First(a) + 2 * e.made) % WRAP
    && forall h: uint32 :: h in e.exports <==> h % 2 == Parity(a) && Slot(a, h) < First(a) + 2 * e.made
  }

  ghost predicate Inv(s: State) {
    Whole(s) && SideOk(s, Server) && SideOk(s, Client)
    && Counted(s.ends[Server], Server) && Counted(s.ends[Client], Client)
  }

  lemma InvAt(s: State, a: Side)
    requires Inv(s)
    ensures SideOk(s, a) && Counted(s.ends[a], a)
  {
    hide SideOk, Counted;
    assert a == Server || a == Client;
  }

  lemma NextParity(h: uint32)
    ensures Next(h) % 2 == h % 2
    ensures h as int + 2 < WRAP ==> Next(h) == h + 2
  {
  }

  lemma CountedNext(e: End, a: Side)
    requires Counted(e, a)
    ensures e.next % 2 == Parity(a)
    ensures e.made < Limit(a) ==> Slot(a, e.next) == First(a) + 2 * e.made
    ensures e.next in e.exports <==> e.made >= Limit(a)
  {
    if e.made >= Limit(a) {
      assert Slot(a, e.next) < Lowest(a) + WRAP <= First(a) + 2 * e.made;
    }
  }

  lemma CountedStep(e: End, x: Handler, a: Side)
    requires Counted(e, a)
    ensures Counted(RegisterOf(e, x), a)
  {
    hide Slot, Limit, Next;
    CountedNext(e, a);
    NextCounted(e, a);
    var t := RegisterOf(e, x);
    forall h: uint32 ensures h in t.exports <==> h % 2 == Parity(a) && Slot(a, h) < First(a) + 2 * t.made {
      assert h in e.exports <==> h % 2 == Parity(a) && Slot(a, h) < First(a) + 2 * e.made;
      SlotNext(e, a, h);
    }
  }

  lemma NextCounted(e: End, a: Side)
    requires Counted(e, a)
    ensures Next(e.next) == (First(a) + 2 * (e.made + 1)) % WRAP
  {
  }

  /** Counting on by one adds exactly the handle the counter stands at. */
  lemma SlotNext(e: End, a: Side, h: uint32)
    requires e.next == (First(a) + 2 * e.made) % WRAP
    ensures h % 2 == Parity(a) && Slot(a, h) < First(a) + 2 * (e.made + 1)
      <==> (h % 2 == Parity(a) && Slot(a, h) < First(a) + 2 * e.made) || h == e.next
  {
    if h % 2 == Parity(a) && First(a) + 2 * e.made <= Slot(a, h) < First(a) + 2 * (e.made + 1) {
      assert Slot(a, h) == First(a) + 2 * e.made;
    }
    if h == e.next && e.made < Limit(a) {
      assert Slot(a, h) == First(a) + 2 * e.made;
    }
  }

  lemma SideStep(s: State, a: Step, side: Side)
    requires Inv(s) && Enabled(s, a)
    ensures SideOk(Apply(s, a), side)
  {
    hide Next, Counted;
    NextParity(s.ends[side].next);
    assert SideOk(s, side) && SideOk(s, Other(side));
  }

  lemma InvStep(s: State, a: Step)
    requires Inv(s) && Enabled(s, a)
    ensures Inv(Apply(s, a))
  {
    hide SideOk, RegisterOf, Next, Counted;
    SideStep(s, a, Server);
    SideStep(s, a, Client);
    InvAt(s, a.side);
    if a.Register? {
      CountedStep(s.ends[a.side], a.handler, a.side);
    } else if a.Resolve? {
      ResolvedCounted(s.ends[a.side], a.handle, a.side);
    }
  }

  lemma ResolvedCounted(e: End, h: uint32, a: Side)
    requires Counted(e, a)
    ensures Counted(ResolveOf(e, h).0, a)
  {
  }

  ghost predicate IsRun(run: seq<State>, steps: seq<Step>) {
    |run| == |steps| + 1 && (exists manager :: run[0] == Init(manager))
    && forall i :: 0 <= i < |steps| ==>
         Whole(run[i]) && Enabled(run[i], steps[i]) && run[i + 1] == Apply(run[i], steps[i])
  }

  lemma InitInv(manager: Handler)
    ensures Inv(Init(manager))
  {
    forall a: Side ensures a in Init(manager).ends && a in Init(manager).sent {
      assert a == Server || a == Client;
    }
  }

  lemma {:induction false} RunInv(run: seq<State>, steps: seq<Step>, i: nat)
    requires IsRun(run, steps) && i < |run|
    ensures Inv(run[i])
    decreases i
  {
    hide Inv, Enabled, Apply, Init;
    if i == 0 {
      var manager :| run[0] == Init(manager);
      InitInv(manager);
    } else {
      RunInv(run, steps, i - 1);
      InvStep(run[i - 1], steps[i - 1]);
    }
  }

  /** In every run: the server's handles are odd and the client's even, what a side imported
      the other exported, and every handle under way was exported by one of them, so that
      every resolution ends at its exporter. */
  lemma HandlesKnown(run: seq<State>, steps: seq<Step>, i: nat, a: Side)
    requires IsRun(run, steps) && i < |run|
    ensures Whole(run[i]) && SideOk(run[i], a)
    ensures forall h :: h in run[i].sent[a] ==> (h in run[i].ends[a].exports) != (h in run[i].ends[Other(a)].exports)
  {
    hide Enabled, Apply, IsRun, Counted;
    RunInv(run, steps, i);
    assert SideOk(run[i], a) && SideOk(run[i], Other(a));
  }

  lemma ExportsStep(s: State, step: Step, a: Side, h: uint32)
    requires Inv(s) && Enabled(s, step) && Whole(Apply(s, step))
    ensures s.ends[a].made <= Apply(s, step).ends[a].made
    ensures h in s.ends[a].exports && Apply(s, step).ends[a].made <= Limit(a) ==>
      h in Apply(s, step).ends[a].exports && Apply(s, step).ends[a].exports[h] == s.ends[a].exports[h]
  {
    hide SideOk, Next, Counted;
    if step.Register? && step.side == a {
      InvAt(s, a);
      CountedNext(s.ends[a], a);
    }
  }

  /** In every run the next handle is one that is already in use if and only if the counter
      has been back at its lowest handle: from 2^31 - 1 registrations of the server and 2^31
      of the client on. */
  lemma ReusedIff(run: seq<State>, steps: seq<Step>, i: nat, a: Side)
    requires IsRun(run, steps) && i < |run|
    ensures Whole(run[i])
    ensures run[i].ends[a].next in run[i].ends[a].exports <==> run[i].ends[a].made >= Limit(a)
    ensures Limit(Server) == 0x7FFF_FFFF && Limit(Client) == 0x8000_0000
  {
    hide Enabled, Apply, IsRun, SideOk, Counted;
    RunInv(run, steps, i);
    InvAt(run[i], a);
    CountedNext(run[i].ends[a], a);
  }

  /** An export stays what it is while the counter has not started over. */
  lemma {:induction false} ExportsKept(run: seq<State>, steps: seq<Step>, i: nat, j: nat, a: Side, h: uint32)
    requires IsRun(run, steps) && i <= j < |run| && Whole(run[i]) && Whole(run[j])
    requires h in run[i].ends[a].exports && run[j].ends[a].made <= Limit(a)
    ensures h in run[j].ends[a].exports && run[j].ends[a].exports[h] == run[i].ends[a].exports[h]
    decreases j
  {
    hide Inv, Enabled, Apply;
    if i < j {
      RunInv(run, steps, j - 1);
      ExportsStep(run[j - 1], steps[j - 1], a, h);
      ExportsKept(run, steps, i, j - 1, a, h);
    }
  }

  /** An object sent out is a remote binder with the same handle on the other side, whenever
      it is read there; sent back, it resolves to the original local handler. */
  lemma ThereAndBack(run: seq<State>, steps: seq<Step>, i: nat, j: nat, a: Side, h: uint32)
    requires IsRun(run, steps) && i <= j < |run| && Whole(run[i]) && Whole(run[j])
    requires h in run[i].ends[a].exports && run[j].ends[a].made <= Limit(a)
    ensures ResolveOf(run[j].ends[Other(a)], h).1 == Remote(h)
    ensures ResolveOf(run[j].ends[a], h).1 == Local(h, run[i].ends[a].exports[h])
  {
    hide Enabled, Apply, IsRun, Counted;
    ExportsKept(run, steps, i, j, a, h);
    RunInv(run, steps, j);
    assert SideOk(run[j], a) && SideOk(run[j], Other(a));
  }
}
