/** The looper thread: it walks a buffer of driver commands and answers each. The driver is
    the log of what is done; its writes succeed. */
module Looper {
  import opened Bytes
  import opened Common
  import opened Wire

  const BR_NOOP: uint32 := 0x720C
  const BR_TRANSACTION_COMPLETE: uint32 := 0x7206
  const BR_SPAWN_LOOPER: uint32 := 0x720D
  const BR_FINISHED: uint32 := 0x720E
  const BR_INCREFS: uint32 := 0x8010_7207
  const BR_ACQUIRE: uint32 := 0x8010_7208
  const BR_RELEASE: uint32 := 0x8010_7209
  const BR_DECREFS: uint32 := 0x8010_720A
  const BR_DEAD_BINDER: uint32 := 0x8008_720F
  const BR_CLEAR_DEATH_NOTIFICATION_DONE: uint32 := 0x8008_7210
  const BR_TRANSACTION: uint32 := 0x8040_7202

  const TF_STATUS: uint32 := 8
  const TF_CLEAR_BUF: uint32 := 0x20

  // ----- commands -----

  /** How many bytes follow a command; other commands are not supported. */
  function PayloadSize(code: uint32): Option<nat> {
    if code in {BR_NOOP, BR_TRANSACTION_COMPLETE, BR_SPAWN_LOOPER, BR_FINISHED} then Some(0)
    else if code in {BR_INCREFS, BR_ACQUIRE, BR_RELEASE, BR_DECREFS} then Some(16)
    else if code in {BR_DEAD_BINDER, BR_CLEAR_DEATH_NOTIFICATION_DONE} then Some(8)
    else if code == BR_TRANSACTION then Some(64)
    else None
  }

  datatype Command = Command(code: uint32, payload: seq<byte>) {
    predicate Supported() { PayloadSize(code) == Some(|payload|) }
  }

  type command = c: Command | c.Supported() witness Command(BR_NOOP, [])

  function Enc(c: command): (r: seq<byte>)
    ensures |r| == 4 + |c.payload|
  {
    LE32(c.code) + c.payload
  }

  function EncAll(cs: seq<command>): seq<byte> {
    if cs == [] then [] else Enc(cs[0]) + EncAll(cs[1..])
  }

  /** No complete supported command stands at the front. */
  predicate Stuck(b: seq<byte>) {
    |b| < 4
    || var size := PayloadSize(Get32(b[..4]));
       size.None? || |b| < 4 + size.value
  }

  function First(b: seq<byte>): command
    requires !Stuck(b)
  {
    var code := Get32(b[..4]);
    Command(code, b[4..4 + PayloadSize(code).value])
  }

  function Commands(b: seq<byte>): seq<command> {
    if Stuck(b) then [] else [First(b)] + Commands(b[4 + |First(b).payload|..])
  }

  function Tail(b: seq<byte>): seq<byte> {
    if Stuck(b) then b else Tail(b[4 + |First(b).payload|..])
  }

  lemma FirstSplits(b: seq<byte>)
    requires !Stuck(b)
    ensures 4 + |First(b).payload| <= |b| && b == Enc(First(b)) + b[4 + |First(b).payload|..]
  {
    hide PayloadSize, Get32, LE32;
    LE32Get(b[..4]);
  }

  lemma EncAllStep(c: command, cs: seq<command>)
    ensures EncAll([c] + cs) == Enc(c) + EncAll(cs)
  {
    assert ([c] + cs)[1..] == cs;
  }

  /** Every buffer is its complete commands followed by a tail that holds none. */
  lemma {:induction false} Decomposes(b: seq<byte>)
    ensures b == EncAll(Commands(b)) + Tail(b) && Stuck(Tail(b))
  {
    hide Stuck, First, Enc, EncAll;
    if Stuck(b) {
      NothingEncoded();
    } else {
      FirstSplits(b);
      var c, rest := First(b), b[4 + |First(b).payload|..];
      Decomposes(rest);
      EncAllStep(c, Commands(rest));
      assert Enc(c) + (EncAll(Commands(rest)) + Tail(rest)) == (Enc(c) + EncAll(Commands(rest))) + Tail(rest);
    }
  }

  lemma NothingEncoded()
    ensures EncAll([]) == []
  {
  }

  /** And in only one way. */
  lemma {:induction false} DecomposesOnce(cs: seq<command>, tail: seq<byte>)
    requires Stuck(tail)
    ensures Commands(EncAll(cs) + tail) == cs && Tail(EncAll(cs) + tail) == tail
  {
    hide PayloadSize, Get32, LE32;
    if cs == [] {
      assert EncAll(cs) + tail == tail;
    } else {
      var c, rest := cs[0], EncAll(cs[1..]) + tail;
      var b := EncAll(cs) + tail;
      assert b == LE32(c.code) + c.payload + rest;
      assert b[..4] == LE32(c.code) && b[4..4 + |c.payload|] == c.payload && b[4 + |c.payload|..] == rest;
      Get32LE(c.code);
      assert !Stuck(b) && First(b) == c;
      DecomposesOnce(cs[1..], tail);
      assert cs == [c] + cs[1..];
    }
  }

  // ----- actions -----

  /** The kernel's transaction record, by its bytes. */
  type tx = b: seq<byte> | |b| == 64 witness Zeros(64)

  function Flags(t: tx): uint32 { Get32(t[20..24]) }
  function Buffer(t: tx): uint64 { Get64(t[48..56]) }
  predicate Oneway(t: tx) { Flags(t) % 2 == 1 }
  function ClearBuf(t: tx): (r: uint32)
    ensures r <= TF_CLEAR_BUF
  {
    if Flags(t) / 0x20 % 2 == 1 then TF_CLEAR_BUF else 0
  }

  datatype Action =
    | IncRefsDone(ptr: uint64, cookie: uint64)
    | AcquireDone(ptr: uint64, cookie: uint64)
    | NotifyDead(cookie: uint64)
    | DeadBinderDone(cookie: uint64)
    | NotifyCleared(cookie: uint64)
    | Dispatch(t: tx)
    | Reply(flags: uint32)
    | Free(buffer: uint64)

  /** What happens to a transaction: its payload or its objects cannot be taken over, or it
      is dispatched, with or without an error. */
  datatype Fate = BadPayload | BadObjects | Dispatched(failed: bool)

  /** The k-th transaction meets the k-th fate. */
  type World = (nat, tx) -> Fate

  function Answer(t: tx, fate: Fate): seq<Action> {
    match fate
    case Dispatched(failed) =>
      [Dispatch(t)] + if Oneway(t) then [] else [Reply(if failed then TF_STATUS + ClearBuf(t) else ClearBuf(t))]
    case _ => if Oneway(t) then [] else [Reply(TF_STATUS + ClearBuf(t))]
  }

  function Release(t: tx): seq<Action> { if Buffer(t) != 0 then [Free(Buffer(t))] else [] }

  function ActionsOf(c: command, k: nat, world: World): seq<Action> {
    if c.code == BR_INCREFS then [IncRefsDone(Get64(c.payload[..8]), Get64(c.payload[8..]))]
    else if c.code == BR_ACQUIRE then [AcquireDone(Get64(c.payload[..8]), Get64(c.payload[8..]))]
    else if c.code == BR_DEAD_BINDER then [NotifyDead(Get64(c.payload)), DeadBinderDone(Get64(c.payload))]
    else if c.code == BR_CLEAR_DEATH_NOTIFICATION_DONE then [NotifyCleared(Get64(c.payload))]
    else if c.code == BR_TRANSACTION then Answer(c.payload, world(k, c.payload)) + Release(c.payload)
    else []
  }

  /** Only a oneway transaction that cannot be taken over ends the walk. */
  predicate Ends(c: command, k: nat, world: World) {
    c.code == BR_TRANSACTION && Oneway(c.payload) && !world(k, c.payload).Dispatched?
  }

  function Count(c: command): nat { if c.code == BR_TRANSACTION then 1 else 0 }

  /** The commands that are carried out: all, or those up to the one that ends the walk. */
  function Executed(cs: seq<command>, k: nat, world: World): seq<command> {
    if cs == [] then []
    else if Ends(cs[0], k, world) then [cs[0]]
    else [cs[0]] + Executed(cs[1..], k + Count(cs[0]), world)
  }

  predicate Interrupted(cs: seq<command>, k: nat, world: World) {
    cs != [] && (Ends(cs[0], k, world) || Interrupted(cs[1..], k + Count(cs[0]), world))
  }

  function Run(cs: seq<command>, k: nat, world: World): seq<Action> {
    if cs == [] then [] else ActionsOf(cs[0], k, world) + Run(cs[1..], k + Count(cs[0]), world)
  }

  /** Everything the looper does with a list of commands. */
  function Acts(cs: seq<command>, k: nat, world: World): seq<Action> { Run(Executed(cs, k, world), k, world) }

  lemma ActsStep(cs: seq<command>, k: nat, world: World)
    requires cs != []
    ensures Acts(cs, k, world)
         == ActionsOf(cs[0], k, world) + if Ends(cs[0], k, world) then [] else Acts(cs[1..], k + Count(cs[0]), world)
  {
    hide Ends, ActionsOf;
    if Ends(cs[0], k, world) {
      assert Executed(cs, k, world) == [cs[0]] && [cs[0]][1..] == [];
      assert Run([], k + Count(cs[0]), world) == [];
    } else {
      var more := Executed(cs[1..], k + Count(cs[0]), world);
      assert Executed(cs, k, world) == [cs[0]] + more;
      assert ([cs[0]] + more)[1..] == more;
    }
  }

  // ----- the worker -----

  class Worker {
    /** What was done so far, and how many transactions were taken from the buffer. */
    var log: seq<Action>
    var taken: nat

    constructor ()
      ensures log == [] && taken == 0
    {
      log, taken := [], 0;
    }

    /** The buffer is freed last, whatever became of the transaction. */
    method HandleTransaction(t: tx, fate: Fate) returns (ok: bool)
      modifies this`log
      ensures log == old(log) + (Answer(t, fate) + Release(t))
      ensures ok <==> !Oneway(t) || fate.Dispatched?
    {
      hide Oneway, ClearBuf, Buffer;
      ok := true;
      if !fate.Dispatched? {
        if Oneway(t) {
          ok := false;
        } else {
          log := log + [Reply(TF_STATUS + ClearBuf(t))];
        }
      } else {
        log := log + [Dispatch(t)];
        if !Oneway(t) {
          log := log + [Reply(if fate.failed then TF_STATUS + ClearBuf(t) else ClearBuf(t))];
        }
      }
      assert log == old(log) + Answer(t, fate);
      if Buffer(t) != 0 {
        log := log + [Free(Buffer(t))];
      }
    }

    /** One command whose payload is complete. */
    method HandleCommand(c: command, world: World) returns (ok: bool)
      modifies this
      ensures log == old(log) + ActionsOf(c, old(taken), world)
      ensures taken == old(taken) + Count(c) && (ok <==> !Ends(c, old(taken), world))
    {
      hide Answer, Release, Oneway, Get64;
      ok := true;
      if c.code == BR_INCREFS {
        log := log + [IncRefsDone(Get64(c.payload[..8]), Get64(c.payload[8..]))];
      } else if c.code == BR_ACQUIRE {
        log := log + [AcquireDone(Get64(c.payload[..8]), Get64(c.payload[8..]))];
      } else if c.code == BR_DEAD_BINDER {
        log := log + [NotifyDead(Get64(c.payload))];
        log := log + [DeadBinderDone(Get64(c.payload))];
      } else if c.code == BR_CLEAR_DEATH_NOTIFICATION_DONE {
        log := log + [NotifyCleared(Get64(c.payload))];
      } else if c.code == BR_TRANSACTION {
        var fate := world(taken, c.payload);
        taken := taken + 1;
        ok := HandleTransaction(c.payload, fate);
      }
    }

    /** Does exactly what the complete commands ask for, in order, up to the first tail that
        is not a complete supported command or the first transaction that ends the walk. */
    method HandleCommands(buf: seq<byte>, world: World) returns (ok: bool)
      modifies this
      ensures log == old(log) + Acts(Commands(buf), old(taken), world)
      ensures ok <==> Tail(buf) == [] && !Interrupted(Commands(buf), old(taken), world)
    {
      hide PayloadSize, Get32, ActionsOf, Ends, Count, Acts, Commands, Tail, Interrupted, Stuck, First;
      var pos := 0;
      ghost var done: seq<Action> := [];
      assert buf[0..] == buf;
      while pos < |buf|
        invariant 0 <= pos <= |buf| && log == old(log) + done
        invariant Acts(Commands(buf), old(taken), world) == done + Acts(Commands(buf[pos..]), taken, world)
        invariant Tail(buf) == Tail(buf[pos..])
        invariant Interrupted(Commands(buf), old(taken), world) <==> Interrupted(Commands(buf[pos..]), taken, world)
        decreases |buf| - pos
      {
        ghost var start := pos;
        if |buf| - pos < 4 {
          StuckAt(buf, start, taken, world);
          return false;
        }
        var code := Get32(buf[pos..pos + 4]);
        pos := pos + 4;
        var size := PayloadSize(code);
        if size.None? || |buf| - pos < size.value {
          StuckAt(buf, start, taken, world);
          return false;
        }
        var c := Command(code, buf[pos..pos + size.value]);
        pos := pos + size.value;
        CommandAt(buf, start, c, taken, world);
        ghost var k := taken;
        ok := HandleCommand(c, world);
        done := done + ActionsOf(c, k, world);
        if !ok {
          return;
        }
      }
      StuckAt(buf, pos, taken, world);
      return true;
    }
  }

  /** The walk ends where no complete command follows. */
  lemma StuckAt(buf: seq<byte>, pos: nat, k: nat, world: World)
    requires pos <= |buf|
    requires |buf| - pos < 4 || PayloadSize(Get32(buf[pos..pos + 4])).None?
             || |buf| - pos - 4 < PayloadSize(Get32(buf[pos..pos + 4])).value
    ensures Commands(buf[pos..]) == [] && Tail(buf[pos..]) == buf[pos..]
    ensures Acts(Commands(buf[pos..]), k, world) == [] && !Interrupted(Commands(buf[pos..]), k, world)
  {
    hide PayloadSize, Get32;
    if |buf| - pos >= 4 {
      assert buf[pos..][..4] == buf[pos..pos + 4];
    }
    NoMore(buf[pos..], k, world);
  }

  lemma CommandAt(buf: seq<byte>, pos: nat, c: command, k: nat, world: World)
    requires pos + 4 + |c.payload| <= |buf|
    requires c.code == Get32(buf[pos..pos + 4]) && c.payload == buf[pos + 4..pos + 4 + |c.payload|]
    ensures Tail(buf[pos..]) == Tail(buf[pos + 4 + |c.payload|..])
    ensures Acts(Commands(buf[pos..]), k, world)
         == ActionsOf(c, k, world)
            + (if Ends(c, k, world) then [] else Acts(Commands(buf[pos + 4 + |c.payload|..]), k + Count(c), world))
    ensures Interrupted(Commands(buf[pos..]), k, world)
            <==> Ends(c, k, world) || Interrupted(Commands(buf[pos + 4 + |c.payload|..]), k + Count(c), world)
  {
    hide PayloadSize, Get32, ActionsOf, Ends, Count, Acts, Commands, Tail, Interrupted;
    var b := buf[pos..];
    assert b[..4] == buf[pos..pos + 4] && b[4..4 + |c.payload|] == c.payload;
    assert b[4 + |c.payload|..] == buf[pos + 4 + |c.payload|..];
    assert c.Supported();
    assert !Stuck(b) && First(b) == c;
    OneMore(b, k, world);
  }

  lemma NoMore(b: seq<byte>, k: nat, world: World)
    requires Stuck(b)
    ensures Commands(b) == [] && Tail(b) == b && Acts([], k, world) == [] && !Interrupted([], k, world)
  {
  }

  lemma OneMore(b: seq<byte>, k: nat, world: World)
    requires !Stuck(b)
    ensures var c, rest := First(b), b[4 + |First(b).payload|..];
            Tail(b) == Tail(rest)
            && Acts(Commands(b), k, world)
               == ActionsOf(c, k, world) + (if Ends(c, k, world) then [] else Acts(Commands(rest), k + Count(c), world))
            && (Interrupted(Commands(b), k, world)
                <==> Ends(c, k, world) || Interrupted(Commands(rest), k + Count(c), world))
  {
    hide PayloadSize, Get32, ActionsOf, Ends, Count, Acts;
    var rest := b[4 + |First(b).payload|..];
    assert Commands(b) == [First(b)] + Commands(rest);
    assert Commands(b)[0] == First(b) && Commands(b)[1..] == Commands(rest);
    ActsStep(Commands(b), k, world);
  }

  // ----- what is done -----

  function Only(acts: seq<Action>, p: Action -> bool): seq<Action> {
    if acts == [] then [] else (if p(acts[0]) then [acts[0]] else []) + Only(acts[1..], p)
  }

  lemma {:induction false} OnlyConcat(a: seq<Action>, b: seq<Action>, p: Action -> bool)
    ensures Only(a + b, p) == Only(a, p) + Only(b, p)
  {
    var all := a + b;
    if a == [] {
      assert all == b;
    } else {
      assert all[0] == a[0] && all[1..] == a[1..] + b;
      OnlyConcat(a[1..], b, p);
    }
  }

  predicate IsDone(a: Action) { a.IncRefsDone? || a.AcquireDone? }
  predicate IsReply(a: Action) { a.Reply? }
  predicate IsFree(a: Action) { a.Free? }

  /** The acknowledgement a command is due. */
  function DoneOf(c: command): seq<Action> {
    if c.code == BR_INCREFS then [IncRefsDone(Get64(c.payload[..8]), Get64(c.payload[8..]))]
    else if c.code == BR_ACQUIRE then [AcquireDone(Get64(c.payload[..8]), Get64(c.payload[8..]))]
    else []
  }

  function Dones(cs: seq<command>): seq<Action> { if cs == [] then [] else DoneOf(cs[0]) + Dones(cs[1..]) }

  function FreeOf(c: command): seq<Action> { if c.code == BR_TRANSACTION then Release(c.payload) else [] }

  function Frees(cs: seq<command>): seq<Action> { if cs == [] then [] else FreeOf(cs[0]) + Frees(cs[1..]) }

  function Calls(cs: seq<command>): nat {
    if cs == [] then 0 else (if cs[0].code == BR_TRANSACTION && !Oneway(cs[0].payload) then 1 else 0) + Calls(cs[1..])
  }

  lemma OnlyFew(a: Action, b: Action, p: Action -> bool)
    ensures Only([], p) == [] && Only([a], p) == if p(a) then [a] else []
    ensures Only([a, b], p) == (if p(a) then [a] else []) + (if p(b) then [b] else [])
  {
    assert [a][1..] == [] && [a, b][1..] == [b] && [b][1..] == [];
  }

  lemma OneAnswer(t: tx, fate: Fate)
    ensures Only(Answer(t, fate), IsDone) == [] && Only(Answer(t, fate), IsFree) == []
    ensures |Only(Answer(t, fate), IsReply)| == if Oneway(t) then 0 else 1
  {
    hide Oneway, ClearBuf, Only;
    var reply := Reply(if fate.Dispatched? && !fate.failed then ClearBuf(t) else TF_STATUS + ClearBuf(t));
    OnlyFew(Dispatch(t), reply, IsDone);
    OnlyFew(Dispatch(t), reply, IsFree);
    OnlyFew(Dispatch(t), reply, IsReply);
    OnlyFew(reply, reply, IsDone);
    OnlyFew(reply, reply, IsFree);
    OnlyFew(reply, reply, IsReply);
    assert [Dispatch(t)] + [reply] == [Dispatch(t), reply] && [Dispatch(t)] + [] == [Dispatch(t)];
  }

  lemma OneTransaction(t: tx, fate: Fate)
    ensures Only(Answer(t, fate) + Release(t), IsDone) == []
    ensures Only(Answer(t, fate) + Release(t), IsFree) == Release(t)
    ensures |Only(Answer(t, fate) + Release(t), IsReply)| == if Oneway(t) then 0 else 1
  {
    hide Oneway, Buffer, Answer, Only;
    OneAnswer(t, fate);
    OnlyConcat(Answer(t, fate), Release(t), IsDone);
    OnlyConcat(Answer(t, fate), Release(t), IsFree);
    OnlyConcat(Answer(t, fate), Release(t), IsReply);
    OnlyFew(Free(Buffer(t)), Free(Buffer(t)), IsDone);
    OnlyFew(Free(Buffer(t)), Free(Buffer(t)), IsFree);
    OnlyFew(Free(Buffer(t)), Free(Buffer(t)), IsReply);
  }

  lemma OneCommand(c: command, k: nat, world: World)
    ensures Only(ActionsOf(c, k, world), IsDone) == DoneOf(c)
    ensures Only(ActionsOf(c, k, world), IsFree) == FreeOf(c)
    ensures |Only(ActionsOf(c, k, world), IsReply)| == if c.code == BR_TRANSACTION && !Oneway(c.payload) then 1 else 0
  {
    hide Oneway, Answer, Release, Get64, Only;
    if c.code == BR_TRANSACTION {
      OneTransaction(c.payload, world(k, c.payload));
    } else {
      var acts := ActionsOf(c, k, world);
      var a := if acts == [] then NotifyDead(0) else acts[0];
      var b := if |acts| < 2 then NotifyDead(0) else acts[1];
      OnlyFew(a, b, IsDone);
      OnlyFew(a, b, IsFree);
      OnlyFew(a, b, IsReply);
    }
  }

  /** For every list of commands: each INCREFS and ACQUIRE that is carried out gets its own
      acknowledgement, each transaction with a buffer frees it once, each synchronous
      transaction is replied to once and a oneway one never, in the order of the commands. */
  lemma {:induction false} Accounted(cs: seq<command>, k: nat, world: World)
    ensures Only(Run(cs, k, world), IsDone) == Dones(cs)
    ensures Only(Run(cs, k, world), IsFree) == Frees(cs)
    ensures |Only(Run(cs, k, world), IsReply)| == Calls(cs)
  {
    hide ActionsOf, DoneOf, FreeOf, Oneway, Count;
    if cs != [] {
      var head, rest := ActionsOf(cs[0], k, world), Run(cs[1..], k + Count(cs[0]), world);
      OneCommand(cs[0], k, world);
      Accounted(cs[1..], k + Count(cs[0]), world);
      OnlyConcat(head, rest, IsDone);
      OnlyConcat(head, rest, IsFree);
      OnlyConcat(head, rest, IsReply);
    }
  }

  /** What is carried out are the complete commands, all of them or those up to the first
      transaction that ends the walk. */
  lemma {:induction false} ExecutedPrefix(cs: seq<command>, k: nat, world: World)
    ensures Executed(cs, k, world) <= cs
    ensures Interrupted(cs, k, world) || Executed(cs, k, world) == cs
    ensures Interrupted(cs, k, world) ==> Executed(cs, k, world) != []
  {
    hide Ends, Count;
    if cs != [] && !Ends(cs[0], k, world) {
      ExecutedPrefix(cs[1..], k + Count(cs[0]), world);
      assert cs == [cs[0]] + cs[1..];
    }
  }
}
