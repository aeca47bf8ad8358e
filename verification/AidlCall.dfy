/** A call through generated code: the proxy writes the request, any transport carries its
    bytes, the handler reads them, calls the implementation and writes the reply, and the
    proxy reads it. Proxy and handler may come from different versions of the types. */
module AidlCall {
  import opened Bytes
  import opened Common
  import opened Objects
  import opened Wire
  import opened AidlTypes
  import opened AidlCodec
  import D = DynamicValues
  import Utf16

  const REQUEST_FLAGS: uint32 := 0x8000_0000
  const SYST: uint32 := 0x53595354

  const NONE: int32 := 0
  const SERVICE_SPECIFIC: int32 := -8
  const PARCELABLE: int32 := -9
  const HAS_NOTED_APP_OPS: int32 := -127
  const HAS_REPLY_HEADER: int32 := -128
  const TRANSACTION_FAILED: int32 := -129

  /** A method lowered to its inputs and outputs; `ret` comes before the outputs. */
  datatype Method = Method(code: uint32, oneway: bool, inputs: seq<Type>, ret: Option<Type>, outputs: seq<Type>)

  datatype Interface = Interface(descriptor: Utf16.text, methods: seq<Method>)

  datatype Exception = Exception(code: int32, message: Utf16.text, service: int32)

  /** What an implementation does: return its results, raise an exception the reply can
      carry, or fail otherwise. */
  datatype Outcome = Returned(results: seq<Val>) | Raised(ex: Exception) | Failed

  /** What the handler gives to the transport. */
  datatype Answer = Reply(bytes: seq<byte>, objs: seq<ObjectRef>) | NoReply | Error

  /** What the proxy gives to its caller. */
  datatype Result = Results(values: seq<Val>) | Remote(ex: Exception) | Broken

  function Replies(m: Method): seq<Type> { (if m.ret.Some? then [m.ret.value] else []) + m.outputs }

  // ----- lists of arguments -----

  predicate ArgsOk(env: Env, ts: seq<Type>, vs: seq<Val>) {
    if ts == [] then vs == [] else vs != [] && HasType(env, ts[0], vs[0]) && ArgsOk(env, ts[1..], vs[1..])
  }

  function EncArgs(env: Env, ts: seq<Type>, vs: seq<Val>): seq<byte>
    requires ArgsOk(env, ts, vs)
  {
    if ts == [] then [] else EncIn(env, ts[0], vs[0]) + EncArgs(env, ts[1..], vs[1..])
  }

  /** The rows of the object table that writing a list of values at `pos` adds. */
  function RowsArgs(env: Env, ts: seq<Type>, vs: seq<Val>, pos: nat): seq<ObjectRef>
    requires ArgsOk(env, ts, vs)
  {
    if ts == [] then []
    else RowsIn(env, ts[0], vs[0], pos) + RowsArgs(env, ts[1..], vs[1..], pos + |EncIn(env, ts[0], vs[0])|)
  }

  lemma {:induction false} RowsArgsWithin(env: Env, ts: seq<Type>, vs: seq<Val>, pos: nat)
    requires ArgsOk(env, ts, vs)
    ensures TableWithin(RowsArgs(env, ts, vs, pos), pos, pos + |EncArgs(env, ts, vs)|)
    decreases ts
  {
    hide TableWithin, HasType, EncIn, RowsIn;
    if ts == [] {
      NoneWithin(pos, pos);
    } else {
      var mid := pos + |EncIn(env, ts[0], vs[0])|;
      RowsInWithin(env, ts[0], vs[0], pos);
      RowsArgsWithin(env, ts[1..], vs[1..], mid);
      TableJoin(RowsIn(env, ts[0], vs[0], pos), RowsArgs(env, ts[1..], vs[1..], mid),
                pos, mid, mid + |EncArgs(env, ts[1..], vs[1..])|);
    }
  }

  /** The table a writer leaves finds every one of its rows. */
  lemma RowsArgsHeld(env: Env, ts: seq<Type>, vs: seq<Val>, pos: nat)
    requires ArgsOk(env, ts, vs)
    ensures Held(RowsArgs(env, ts, vs, pos), RowsArgs(env, ts, vs, pos))
  {
    hide TableWithin, ArgsOk, EncArgs, RowsArgs, Held;
    RowsArgsWithin(env, ts, vs, pos);
    TableHolds(RowsArgs(env, ts, vs, pos), pos, pos + |EncArgs(env, ts, vs)|);
  }

  /** An argument or result that must be there and is not makes the call fail. */
  function DecArg(env: Env, t: Type, b: seq<byte>, objs: seq<ObjectRef>, pos: nat): (r: Read<Val>)
    requires pos <= |b|
    ensures r.Ok? ==> pos <= r.pos <= |b|
  {
    if TypedObject(t) && !t.nullable then
      var (present, q) :- ReadI32(b, pos);
      if present == 0 then Fail else Dec(env, t, b, objs, q)
    else DecIn(env, t, b, objs, pos)
  }

  function DecArgs(env: Env, ts: seq<Type>, b: seq<byte>, objs: seq<ObjectRef>, pos: nat): (r: Read<seq<Val>>)
    requires pos <= |b|
    ensures r.Ok? ==> pos <= r.pos <= |b| && |r.value| == |ts|
    decreases ts
  {
    if ts == [] then Ok([], pos)
    else
      var (v, q) :- DecArg(env, ts[0], b, objs, pos);
      var (vs, q2) :- DecArgs(env, ts[1..], b, objs, q);
      Ok([v] + vs, q2)
  }

  function AdaptArgs(env: Env, ts: seq<Type>, vs: seq<Val>): seq<Val>
    requires |ts| == |vs|
  {
    if ts == [] then [] else [Adapt(env, ts[0], vs[0])] + AdaptArgs(env, ts[1..], vs[1..])
  }

  predicate SharedArgs(w: Env, r: Env, ts: seq<Type>) { forall i :: 0 <= i < |ts| ==> Shared(w, r, ts[i]) }

  predicate KnowsArgs(env: Env, ts: seq<Type>, vs: seq<Val>)
    requires |ts| == |vs|
  {
    forall i :: 0 <= i < |ts| ==> Knows(env, ts[i], vs[i])
  }

  lemma {:induction false} ArgsLength(env: Env, ts: seq<Type>, vs: seq<Val>)
    requires ArgsOk(env, ts, vs)
    ensures |ts| == |vs|
  {
    if ts != [] {
      ArgsLength(env, ts[1..], vs[1..]);
    }
  }

  lemma DecArgAt(w: Env, r: Env, t: Type, v: Val, b: seq<byte>, objs: seq<ObjectRef>, pos: nat)
    requires Skew(w, r) && Shared(w, r, t) && HasType(w, t, v) && |EncIn(w, t, v)| <= MAX_INT32
    requires pos <= |b| && At(b, pos, EncIn(w, t, v)) && Held(objs, RowsIn(w, t, v, pos))
    ensures DecArg(r, t, b, objs, pos) == Recovered(r, t, v, pos + |EncIn(w, t, v)|)
  {
    hide At, Held, RowsIn, EncI32, ReadI32, Enc, Dec, Skew, Shared, HasType, Adapt, Knows, Zero;
    DecEncIn(w, r, t, v, b, objs, pos);
    if TypedObject(t) && !t.nullable {
      AtSplit(b, pos, EncI32(1), Enc(w, t, v));
      ReadI32At(b, pos, 1);
    }
  }

  lemma {:induction false} DecArgsAt(
    w: Env, r: Env, ts: seq<Type>, vs: seq<Val>, b: seq<byte>, objs: seq<ObjectRef>, pos: nat)
    requires Skew(w, r) && SharedArgs(w, r, ts) && |ts| == |vs| && ArgsOk(w, ts, vs)
    requires |EncArgs(w, ts, vs)| <= MAX_INT32
    requires pos <= |b| && At(b, pos, EncArgs(w, ts, vs)) && Held(objs, RowsArgs(w, ts, vs, pos))
    ensures DecArgs(r, ts, b, objs, pos)
         == if KnowsArgs(r, ts, vs) then Ok(AdaptArgs(r, ts, vs), pos + |EncArgs(w, ts, vs)|) else Fail
    decreases ts
  {
    hide At, Held, RowsIn, Skew, Shared, HasType, EncIn, DecArg, Adapt, Knows;
    if ts != [] {
      KnowsStep(r, ts, vs);
      var q := pos + |EncIn(w, ts[0], vs[0])|;
      AtSplit(b, pos, EncIn(w, ts[0], vs[0]), EncArgs(w, ts[1..], vs[1..]));
      HeldSplit(objs, RowsIn(w, ts[0], vs[0], pos), RowsArgs(w, ts[1..], vs[1..], q));
      DecArgAt(w, r, ts[0], vs[0], b, objs, pos);
      DecArgsAt(w, r, ts[1..], vs[1..], b, objs, q);
    }
  }

  lemma KnowsStep(env: Env, ts: seq<Type>, vs: seq<Val>)
    requires |ts| == |vs| && ts != []
    ensures KnowsArgs(env, ts, vs) <==> Knows(env, ts[0], vs[0]) && KnowsArgs(env, ts[1..], vs[1..])
  {
    hide Knows;
    if Knows(env, ts[0], vs[0]) && KnowsArgs(env, ts[1..], vs[1..]) {
      forall i | 0 <= i < |ts| ensures Knows(env, ts[i], vs[i]) {
        if i > 0 { assert Knows(env, ts[1..][i - 1], vs[1..][i - 1]); }
      }
    }
    if KnowsArgs(env, ts, vs) {
      forall i | 0 <= i < |ts| - 1 ensures Knows(env, ts[1..][i], vs[1..][i]) {
        assert Knows(env, ts[i + 1], vs[i + 1]);
      }
    }
  }

  // ----- requests -----

  function Token(descriptor: Utf16.text): (r: seq<byte>) {
    LE32(REQUEST_FLAGS) + (EncI32(-1) + (LE32(SYST) + EncText(descriptor)))
  }

  function ReadToken(b: seq<byte>): (r: Read<Utf16.text>)
    ensures r.Ok? ==> r.pos <= |b|
  {
    var (_, q) :- ReadU32(b, 0);
    var (_, q2) :- ReadI32(b, q);
    var (header, q3) :- ReadU32(b, q2);
    if header != SYST then Fail else ReadText(b, q3)
  }

  lemma ReadTokenAt(b: seq<byte>, descriptor: Utf16.text)
    requires TextFits(descriptor) && At(b, 0, Token(descriptor))
    ensures ReadToken(b) == Ok(descriptor, |Token(descriptor)|)
  {
    hide At, LE32, EncI32, EncText, ReadU32, ReadI32, ReadText, TextFits;
    AtSplit(b, 0, LE32(REQUEST_FLAGS), EncI32(-1) + (LE32(SYST) + EncText(descriptor)));
    AtSplit(b, 4, EncI32(-1), LE32(SYST) + EncText(descriptor));
    AtSplit(b, 8, LE32(SYST), EncText(descriptor));
    ReadU32At(b, 0, REQUEST_FLAGS);
    ReadI32At(b, 4, -1);
    ReadU32At(b, 8, SYST);
    ReadTextAt(b, 12, descriptor);
  }

  function Request(env: Env, iface: Interface, m: Method, args: seq<Val>): seq<byte>
    requires ArgsOk(env, m.inputs, args)
  {
    Token(iface.descriptor) + EncArgs(env, m.inputs, args)
  }

  function RequestRows(env: Env, iface: Interface, m: Method, args: seq<Val>): seq<ObjectRef>
    requires ArgsOk(env, m.inputs, args)
  {
    RowsArgs(env, m.inputs, args, |Token(iface.descriptor)|)
  }

  /** The case of the handler's switch that a code selects. */
  function Find(ms: seq<Method>, code: uint32): (r: Option<nat>)
    ensures r.Some? ==> r.value < |ms| && ms[r.value].code == code
    ensures r.None? ==> forall i :: 0 <= i < |ms| ==> ms[i].code != code
  {
    if ms == [] then None
    else if ms[0].code == code then Some(0)
    else
      var rest := Find(ms[1..], code);
      if rest.Some? then Some(rest.value + 1) else None
  }

  /** Which method the handler calls for a request, and with what. */
  function Invocation(
    env: Env, iface: Interface, code: uint32, data: seq<byte>, objs: seq<ObjectRef>): Option<(nat, seq<Val>)>
  {
    var token := ReadToken(data);
    if token.Fail? || token.value != iface.descriptor then None
    else
      var i := Find(iface.methods, code);
      if i.None? then None
      else
        var args := DecArgs(env, iface.methods[i.value].inputs, data, objs, token.pos);
        if args.Fail? then None else Some((i.value, args.value))
  }

  // ----- replies -----

  function ExceptionTail(e: Exception): seq<byte> {
    if e.code == SERVICE_SPECIFIC then EncI32(e.service) else if e.code == PARCELABLE then EncI32(0) else []
  }

  function EncException(e: Exception): seq<byte> {
    EncI32(e.code) + (EncText(e.message) + (EncI32(0) + ExceptionTail(e)))
  }

  /** The handler: one invocation, at most one reply. */
  function Answered(env: Env, m: Method, out: Outcome): Answer {
    if m.oneway then (if out.Returned? then NoReply else Error)
    else
      match out
      case Returned(results) =>
        if ArgsOk(env, Replies(m), results)
        then Reply(EncI32(NONE) + EncArgs(env, Replies(m), results), RowsArgs(env, Replies(m), results, 4))
        else Error
      case Raised(e) => if TextFits(e.message) then Reply(EncException(e), []) else Error
      case Failed => Error
  }

  function Handle(
    env: Env, iface: Interface, impl: (nat, seq<Val>) -> Outcome,
    code: uint32, data: seq<byte>, objs: seq<ObjectRef>): Answer
  {
    var call := Invocation(env, iface, code, data, objs);
    if call.None? then Error
    else if call.value.0 < |iface.methods| then
      Answered(env, iface.methods[call.value.0], impl(call.value.0, call.value.1))
    else Error
  }

  /** Skips a sized header; the size includes its own four bytes. */
  function SkipHeader(b: seq<byte>, pos: nat): (r: Read<()>)
    requires pos <= |b|
    ensures r.Ok? ==> r.pos <= |b|
  {
    var (size, _) :- ReadI32(b, pos);
    if size < 0 || pos + size > |b| then Fail else Ok((), pos + size)
  }

  /** The status at the head of a reply: success and where the results start, a remote
      exception, or an error. */
  datatype Status = Success(pos: nat) | Thrown(ex: Exception) | Bad

  function ReadStatus(b: seq<byte>): (r: Status)
    ensures r.Success? ==> r.pos <= |b|
  {
    var code := ReadI32(b, 0);
    if code.Fail? then Bad
    else if code.value == HAS_NOTED_APP_OPS then
      var skipped := SkipHeader(b, code.pos);
      if skipped.Fail? then Bad
      else
        var next := ReadI32(b, skipped.pos);
        if next.Fail? then Bad else ReadStatusBody(next.value, b, next.pos)
    else ReadStatusBody(code.value, b, code.pos)
  }

  function ReadStatusBody(code: int32, b: seq<byte>, pos: nat): (r: Status)
    requires pos <= |b|
    ensures r.Success? ==> r.pos <= |b|
  {
    if code == HAS_REPLY_HEADER then
      var skipped := SkipHeader(b, pos);
      if skipped.Fail? then Bad else Success(skipped.pos)
    else if code == TRANSACTION_FAILED then Bad
    else if code == NONE then Success(pos)
    else
      var msg := ReadNullableText(b, pos);
      if msg.Fail? then Bad
      else
        var size := ReadI32(b, msg.pos);
        if size.Fail? || size.value < 0 || msg.pos + size.value > |b| then Bad
        else
          var after := if size.value != 0 then msg.pos + size.value else size.pos;
          var text := if msg.value.Some? then msg.value.value else [];
          if code == SERVICE_SPECIFIC then
            var service := ReadI32(b, after);
            if service.Fail? then Bad else Thrown(Exception(code, text, service.value))
          else if code == PARCELABLE && SkipHeader(b, after).Fail? then Bad
          else Thrown(Exception(code, text, 0))
  }

  /** The proxy's reading of an answer. */
  function Received(env: Env, m: Method, a: Answer): Result {
    match a
    case Error => Broken
    case NoReply => if m.oneway then Results([]) else Broken
    case Reply(b, objs) =>
      if m.oneway then Results([])
      else
        match ReadStatus(b)
        case Bad => Broken
        case Thrown(e) => Result.Remote(e)
        case Success(pos) =>
          var values := DecArgs(env, Replies(m), b, objs, pos);
          if values.Ok? then Results(values.value) else Broken
  }

  /** A whole call. The transport delivers the bytes of the request, cursor at the start, and
      those of the reply, each with its object table. */
  function Call(
    proxy: Env, handler: Env, iface: Interface, impl: (nat, seq<Val>) -> Outcome, m: Method, args: seq<Val>): Result
  {
    if ArgsOk(proxy, m.inputs, args) && TextFits(iface.descriptor) then
      var data, objs := Request(proxy, iface, m, args), RequestRows(proxy, iface, m, args);
      Received(proxy, m, Handle(handler, iface, impl, m.code, data, objs))
    else Broken
  }

  // ----- exceptions -----

  /** The service code travels only with service-specific exceptions. */
  function Carried(e: Exception): Exception { if e.code == SERVICE_SPECIFIC then e else e.(service := 0) }

  predicate Ordinary(code: int32) {
    code != NONE && code != HAS_NOTED_APP_OPS && code != HAS_REPLY_HEADER && code != TRANSACTION_FAILED
  }

  lemma ExceptionAt(e: Exception)
    requires TextFits(e.message)
    ensures var b := EncException(e);
            var q := 4 + |EncText(e.message)|;
            ReadI32(b, 0) == Ok(e.code, 4) && ReadNullableText(b, 4) == Ok(Some(e.message), q)
            && ReadI32(b, q) == Ok(0, q + 4) && At(b, q + 4, ExceptionTail(e)) && |b| == q + 4 + |ExceptionTail(e)|
  {
    hide At, EncI32, EncText, ReadI32, ReadNullableText, TextFits;
    var b, q := EncException(e), 4 + |EncText(e.message)|;
    assert At(b, 0, b) by { assert b[0..|b|] == b; ItselfAt(b); }
    AtSplit(b, 0, EncI32(e.code), EncText(e.message) + (EncI32(0) + ExceptionTail(e)));
    AtSplit(b, 4, EncText(e.message), EncI32(0) + ExceptionTail(e));
    AtSplit(b, q, EncI32(0), ExceptionTail(e));
    ReadI32At(b, 0, e.code);
    ReadTextAt(b, 4, e.message);
    ReadI32At(b, q, 0);
  }

  lemma ItselfAt(b: seq<byte>)
    ensures At(b, 0, b)
  {
  }

  lemma OrdinaryArrives(e: Exception)
    requires TextFits(e.message) && Ordinary(e.code)
    ensures ReadStatus(EncException(e)) == Thrown(Carried(e))
  {
    hide At, EncI32, EncText, EncException, ReadI32, ReadNullableText, TextFits;
    ExceptionAt(e);
    var b, q := EncException(e), 4 + |EncText(e.message)|;
    if e.code == SERVICE_SPECIFIC {
      ReadI32At(b, q + 4, e.service);
    } else if e.code == PARCELABLE {
      ReadI32At(b, q + 4, 0);
    }
  }

  /** Reading a message takes as much as writing it. */
  lemma MessageTakes(b: seq<byte>, pos: nat)
    requires ReadNullableText(b, pos).Ok? && ReadNullableText(b, pos).value.Some?
    ensures ReadNullableText(b, pos).pos == pos + |EncText(ReadNullableText(b, pos).value.value)|
  {
    hide Utf16.Encode, Utf16.Decode, Utf16.Valid;
    assert ReadText(b, pos).Ok?;
    ReadTextSound(b, pos);
  }

  /** What a body can throw: the message it reads stands inside the buffer. */
  lemma ThrownFits(code: int32, b: seq<byte>, pos: nat)
    requires pos <= |b| && ReadStatusBody(code, b, pos).Thrown? && ReadStatusBody(code, b, pos).ex.message != []
    ensures pos + |EncText(ReadStatusBody(code, b, pos).ex.message)| + 4 <= |b|
  {
    hide EncText, ReadI32, ReadNullableText;
    MessageTakes(b, pos);
  }

  lemma NotedIsLost(e: Exception)
    requires TextFits(e.message) && e.code == HAS_NOTED_APP_OPS
    ensures ReadStatus(EncException(e)) != Thrown(Carried(e))
  {
    hide At, EncI32, EncText, EncException, ReadI32, ReadNullableText, TextFits, ReadStatusBody;
    ExceptionAt(e);
    var b := EncException(e);
    CountOfText(b, 4, e.message);
    var size := ReadI32(b, 4);
    if ReadStatus(b) == Thrown(Carried(e)) {
      var next := ReadI32(b, 4 + size.value);
      if e.message == [] {
        assert ReadStatusBody(NONE, b, 8).Thrown?;
        SuccessBody(b, 8);
        assert false;
      } else {
        ThrownFits(next.value, b, next.pos);
        assert false;
      }
    }
  }

  lemma SuccessBody(b: seq<byte>, pos: nat)
    requires pos <= |b|
    ensures ReadStatusBody(NONE, b, pos) == Success(pos)
  {
  }

  /** The count in front of a string: zero exactly for the empty one. */
  lemma CountOfText(b: seq<byte>, pos: nat, s: Utf16.text)
    requires TextFits(s) && ReadNullableText(b, pos) == Ok(Some(s), pos + |EncText(s)|)
    ensures ReadI32(b, pos).Ok? && ReadI32(b, pos).value >= 0
    ensures s == [] <==> ReadI32(b, pos).value == 0
  {
    hide Utf16.Valid, Utf16.Decode;
    ReadUnitsSound(b, pos + 4, ReadI32(b, pos).value);
  }

  /** An exception an implementation raises reaches the caller if and only if its code is
      not one of those that the reply header gives another meaning. */
  lemma ExceptionArrivesIff(e: Exception)
    requires TextFits(e.message)
    ensures ReadStatus(EncException(e)) == Thrown(Carried(e)) <==> Ordinary(e.code)
  {
    hide At, EncI32, EncText, EncException, ReadI32, ReadNullableText, TextFits;
    ExceptionAt(e);
    if Ordinary(e.code) {
      OrdinaryArrives(e);
    } else if e.code == HAS_NOTED_APP_OPS {
      NotedIsLost(e);
    }
  }

  // ----- what a call does -----

  predicate DistinctCodes(ms: seq<Method>) { forall i, j :: 0 <= i < j < |ms| ==> ms[i].code != ms[j].code }

  /** The handler calls the method that was called, with the caller's arguments as its own
      version has them, if and only if it knows every variant in them; any table will do that
      finds the rows the proxy wrote. */
  lemma CallArrives(proxy: Env, handler: Env, iface: Interface, i: nat, args: seq<Val>, objs: seq<ObjectRef>)
    requires i < |iface.methods| && DistinctCodes(iface.methods) && TextFits(iface.descriptor)
    requires Skew(proxy, handler) && SharedArgs(proxy, handler, iface.methods[i].inputs)
    requires |iface.methods[i].inputs| == |args| && ArgsOk(proxy, iface.methods[i].inputs, args)
    requires |EncArgs(proxy, iface.methods[i].inputs, args)| <= MAX_INT32
    requires Held(objs, RequestRows(proxy, iface, iface.methods[i], args))
    ensures Invocation(handler, iface, iface.methods[i].code, Request(proxy, iface, iface.methods[i], args), objs)
         == if KnowsArgs(handler, iface.methods[i].inputs, args)
            then Some((i, AdaptArgs(handler, iface.methods[i].inputs, args))) else None
  {
    hide Skew, SharedArgs, KnowsArgs, Token, ReadToken, EncArgs, RowsArgs, Held, DecArgs, ArgsOk, AdaptArgs, TextFits;
    var m := iface.methods[i];
    var token, body := Token(iface.descriptor), EncArgs(proxy, m.inputs, args);
    var data := token + body;
    assert At(data, 0, token) && At(data, |token|, body);
    ReadTokenAt(data, iface.descriptor);
    DecArgsAt(proxy, handler, m.inputs, args, data, objs, |token|);
  }

  /** The proxy reads the results as its own version has them, if and only if it knows every
      variant in them. */
  lemma ReplyArrives(proxy: Env, handler: Env, m: Method, results: seq<Val>, objs: seq<ObjectRef>)
    requires Skew(handler, proxy) && SharedArgs(handler, proxy, Replies(m)) && !m.oneway && |Replies(m)| == |results|
    requires ArgsOk(handler, Replies(m), results) && |EncArgs(handler, Replies(m), results)| <= MAX_INT32
    requires Held(objs, RowsArgs(handler, Replies(m), results, 4))
    ensures Answered(handler, m, Returned(results)).Reply?
    ensures Received(proxy, m, Answered(handler, m, Returned(results)).(objs := objs))
         == if KnowsArgs(proxy, Replies(m), results) then Results(AdaptArgs(proxy, Replies(m), results)) else Broken
  {
    hide Skew, SharedArgs, KnowsArgs, EncArgs, RowsArgs, Held, DecArgs, ArgsOk, AdaptArgs, EncI32, ReadI32, Replies;
    var body := EncArgs(handler, Replies(m), results);
    var b := EncI32(NONE) + body;
    assert At(b, 0, EncI32(NONE)) && At(b, 4, body);
    ReadI32At(b, 0, NONE);
    DecArgsAt(handler, proxy, Replies(m), results, b, objs, 4);
  }

  /** What a proxy of one version makes of what a handler of another answers. */
  ghost predicate Returns(proxy: Env, handler: Env, m: Method, out: Outcome, r: Result) {
    match out
    case Returned(results) =>
      r == if |Replies(m)| == |results| && ArgsOk(handler, Replies(m), results) && KnowsArgs(proxy, Replies(m), results)
           then Results(AdaptArgs(proxy, Replies(m), results)) else Broken
    case Raised(e) => r == Result.Remote(Carried(e)) <==> TextFits(e.message) && Ordinary(e.code)
    case Failed => r == Broken
  }

  /** Whatever the implementation does: its results reach the caller as the version of the
      caller has them, unless they are not of the declared types or hold a variant the caller
      does not know; an exception reaches it exactly if its code is an ordinary one. */
  lemma AnswerReturns(proxy: Env, handler: Env, m: Method, out: Outcome)
    requires Skew(handler, proxy) && SharedArgs(handler, proxy, Replies(m)) && !m.oneway
    requires out.Returned? && ArgsOk(handler, Replies(m), out.results) ==>
               |EncArgs(handler, Replies(m), out.results)| <= MAX_INT32
    ensures Returns(proxy, handler, m, out, Received(proxy, m, Answered(handler, m, out)))
  {
    hide Skew, SharedArgs, KnowsArgs, EncArgs, RowsArgs, Held, DecArgs;
    hide ArgsOk, AdaptArgs, Replies, EncException, ReadStatus;
    hide TextFits, Ordinary;
    match out
    case Returned(results) =>
      if ArgsOk(handler, Replies(m), results) {
        ArgsLength(handler, Replies(m), results);
        RowsArgsHeld(handler, Replies(m), results, 4);
        ReplyArrives(proxy, handler, m, results, RowsArgs(handler, Replies(m), results, 4));
      }
    case Raised(e) => if TextFits(e.message) { ExceptionArrivesIff(e); }
    case Failed =>
  }

  /** A two-way call between versions that may each declare what the other does not: the
      implementation is called with the adapted arguments of the caller, and the caller gets
      what the proxy makes of the outcome of that very call. The call fails before that if and
      only if the handler comes upon a variant that it does not know. */
  lemma CallReturns(
    proxy: Env, handler: Env, iface: Interface, impl: (nat, seq<Val>) -> Outcome, i: nat, args: seq<Val>)
    requires i < |iface.methods| && DistinctCodes(iface.methods) && TextFits(iface.descriptor)
    requires Skew(proxy, handler) && SharedArgs(proxy, handler, iface.methods[i].inputs)
    requires Skew(handler, proxy) && SharedArgs(handler, proxy, Replies(iface.methods[i]))
    requires var m := iface.methods[i];
             !m.oneway && |m.inputs| == |args| && ArgsOk(proxy, m.inputs, args)
             && |EncArgs(proxy, m.inputs, args)| <= MAX_INT32
    requires var m := iface.methods[i];
             var out := impl(i, AdaptArgs(handler, m.inputs, args));
             KnowsArgs(handler, m.inputs, args) && out.Returned? && ArgsOk(handler, Replies(m), out.results) ==>
               |EncArgs(handler, Replies(m), out.results)| <= MAX_INT32
    ensures var m := iface.methods[i];
            var r := Call(proxy, handler, iface, impl, m, args);
            if KnowsArgs(handler, m.inputs, args)
            then Returns(proxy, handler, m, impl(i, AdaptArgs(handler, m.inputs, args)), r) else r == Broken
  {
    hide Skew, SharedArgs, KnowsArgs, EncArgs, RowsArgs, RequestRows, Held, DecArgs, ArgsOk, AdaptArgs, Replies;
    hide Answered, Received, Request, Invocation, TextFits, Returns;
    var m := iface.methods[i];
    RequestHeld(proxy, iface, m, args);
    CallArrives(proxy, handler, iface, i, args, RequestRows(proxy, iface, m, args));
    if KnowsArgs(handler, m.inputs, args) {
      AnswerReturns(proxy, handler, m, impl(i, AdaptArgs(handler, m.inputs, args)));
    } else {
      NobodyAnswers(proxy, m);
    }
  }

  lemma RequestHeld(env: Env, iface: Interface, m: Method, args: seq<Val>)
    requires ArgsOk(env, m.inputs, args)
    ensures Held(RequestRows(env, iface, m, args), RequestRows(env, iface, m, args))
  {
    hide ArgsOk, RowsArgs, Held, Token;
    RowsArgsHeld(env, m.inputs, args, |Token(iface.descriptor)|);
  }

  lemma NobodyAnswers(env: Env, m: Method)
    ensures Received(env, m, Error) == Broken
  {
  }

  // ----- through the kernel driver -----

  lemma {:induction false} ArgsRowsImport(env: Env, ts: seq<Type>, vs: seq<Val>, b: seq<byte>, pos: nat)
    requires ArgsOk(env, ts, vs) && |b| < 0x1_0000_0000_0000_0000 && At(b, pos, EncArgs(env, ts, vs))
    ensures D.AllImport(b, RowsArgs(env, ts, vs, pos))
    decreases ts
  {
    hide At, Imports, HasType, EncIn, RowsIn;
    if ts != [] {
      AtSplit(b, pos, EncIn(env, ts[0], vs[0]), EncArgs(env, ts[1..], vs[1..]));
      InRowsImport(env, ts[0], vs[0], b, pos);
      ArgsRowsImport(env, ts[1..], vs[1..], b, pos + |EncIn(env, ts[0], vs[0])|);
    }
  }

  /** The table on the other side of the driver: it carries only the offsets, and the receiver
      parses the objects there again, or refuses the transaction. */
  function DriverTable(b: seq<byte>, rows: seq<ObjectRef>): Option<seq<ObjectRef>> {
    var offsets := Offsets(rows);
    if forall i :: 0 <= i < |offsets| ==> offsets[i] < 0x1_0000_0000_0000_0000 && ParseObject(b, offsets[i]).Parsed?
    then Some(Import(b, offsets)) else None
  }

  /** A table of values that were written at `pos` gets through and finds their rows. */
  lemma DriverHolds(env: Env, ts: seq<Type>, vs: seq<Val>, b: seq<byte>, pos: nat)
    requires ArgsOk(env, ts, vs) && |b| < 0x1_0000_0000_0000_0000 && At(b, pos, EncArgs(env, ts, vs))
    ensures var rows := RowsArgs(env, ts, vs, pos);
            DriverTable(b, rows).Some? && Held(DriverTable(b, rows).value, rows)
  {
    hide ArgsOk, EncArgs, RowsArgs, Imports, ParseObject, Held, TableWithin, Import, SameShape;
    var rows := RowsArgs(env, ts, vs, pos);
    ArgsRowsImport(env, ts, vs, b, pos);
    RowsArgsWithin(env, ts, vs, pos);
    WidenBoth(rows, pos, pos + |EncArgs(env, ts, vs)|, |b|);
    ImportRows(b, rows);
  }

  lemma WidenBoth(rows: seq<ObjectRef>, lo: nat, hi: nat, top: nat)
    requires TableWithin(rows, lo, hi) && hi <= top
    ensures TableWithin(rows, 0, top)
  {
  }

  /** A whole call whose request and reply go through the driver. */
  function CallByDriver(
    proxy: Env, handler: Env, iface: Interface, impl: (nat, seq<Val>) -> Outcome, m: Method, args: seq<Val>): Result
  {
    if ArgsOk(proxy, m.inputs, args) && TextFits(iface.descriptor) then
      var data := Request(proxy, iface, m, args);
      var sent := DriverTable(data, RequestRows(proxy, iface, m, args));
      if sent.None? then Broken
      else
        match Handle(handler, iface, impl, m.code, data, sent.value)
        case Reply(b, objs) =>
          var back := DriverTable(b, objs);
          if back.None? then Broken else Received(proxy, m, Reply(b, back.value))
        case other => Received(proxy, m, other)
    else Broken
  }

  lemma DriverAnswer(proxy: Env, handler: Env, m: Method, out: Outcome)
    requires Skew(handler, proxy) && SharedArgs(handler, proxy, Replies(m)) && !m.oneway
    requires out.Returned? && ArgsOk(handler, Replies(m), out.results) ==>
               |EncArgs(handler, Replies(m), out.results)| <= MAX_INT32
    ensures var a := Answered(handler, m, out);
            a.Reply? ==> DriverTable(a.bytes, a.objs).Some?
                         && Received(proxy, m, a.(objs := DriverTable(a.bytes, a.objs).value)) == Received(proxy, m, a)
  {
    hide Skew, SharedArgs, KnowsArgs, EncArgs, RowsArgs, Held, DecArgs;
    hide ArgsOk, AdaptArgs, Replies, DriverTable, EncException;
    hide EncI32, ReadStatus, TextFits, Received;
    match out
    case Returned(results) =>
      if ArgsOk(handler, Replies(m), results) {
        var b, rows := EncI32(NONE) + EncArgs(handler, Replies(m), results), RowsArgs(handler, Replies(m), results, 4);
        assert At(b, 4, EncArgs(handler, Replies(m), results));
        DriverHolds(handler, Replies(m), results, b, 4);
        RowsArgsHeld(handler, Replies(m), results, 4);
        ArgsLength(handler, Replies(m), results);
        ReplyArrives(proxy, handler, m, results, rows);
        ReplyArrives(proxy, handler, m, results, DriverTable(b, rows).value);
      }
    case Raised(e) => NoObjects(EncException(e));
    case Failed =>
  }

  lemma NoObjects(b: seq<byte>)
    ensures DriverTable(b, []) == Some([])
  {
  }

  /** The driver changes nothing: carrying only offsets, it gives every two-way call the
      result that it would have if the tables themselves were handed over. */
  lemma DriverTransparent(
    proxy: Env, handler: Env, iface: Interface, impl: (nat, seq<Val>) -> Outcome, i: nat, args: seq<Val>)
    requires i < |iface.methods| && DistinctCodes(iface.methods) && TextFits(iface.descriptor)
    requires Skew(proxy, handler) && SharedArgs(proxy, handler, iface.methods[i].inputs)
    requires Skew(handler, proxy) && SharedArgs(handler, proxy, Replies(iface.methods[i]))
    requires var m := iface.methods[i];
             !m.oneway && |m.inputs| == |args| && ArgsOk(proxy, m.inputs, args)
             && |EncArgs(proxy, m.inputs, args)| <= MAX_INT32
             && |Request(proxy, iface, m, args)| < 0x1_0000_0000_0000_0000
    requires var m := iface.methods[i];
             var out := impl(i, AdaptArgs(handler, m.inputs, args));
             KnowsArgs(handler, m.inputs, args) && out.Returned? && ArgsOk(handler, Replies(m), out.results) ==>
               |EncArgs(handler, Replies(m), out.results)| <= MAX_INT32
    ensures CallByDriver(proxy, handler, iface, impl, iface.methods[i], args)
         == Call(proxy, handler, iface, impl, iface.methods[i], args)
  {
    hide Skew, SharedArgs, KnowsArgs, EncArgs, RowsArgs, RequestRows, Held;
    hide DecArgs, ArgsOk, AdaptArgs, Replies, DriverTable;
    hide Answered, Received, Request, Invocation, TextFits;
    var m := iface.methods[i];
    var rows := RequestRows(proxy, iface, m, args);
    RequestHeld(proxy, iface, m, args);
    RequestByDriver(proxy, iface, m, args);
    CallArrives(proxy, handler, iface, i, args, rows);
    CallArrives(proxy, handler, iface, i, args, DriverTable(Request(proxy, iface, m, args), rows).value);
    if KnowsArgs(handler, m.inputs, args) {
      DriverAnswer(proxy, handler, m, impl(i, AdaptArgs(handler, m.inputs, args)));
    }
  }

  lemma RequestByDriver(env: Env, iface: Interface, m: Method, args: seq<Val>)
    requires ArgsOk(env, m.inputs, args) && |Request(env, iface, m, args)| < 0x1_0000_0000_0000_0000
    ensures var table := DriverTable(Request(env, iface, m, args), RequestRows(env, iface, m, args));
            table.Some? && Held(table.value, RequestRows(env, iface, m, args))
  {
    hide ArgsOk, EncArgs, RowsArgs, Held, Token, DriverTable;
    var token, body := Token(iface.descriptor), EncArgs(env, m.inputs, args);
    assert At(token + body, |token|, body);
    DriverHolds(env, m.inputs, args, token + body, |token|);
  }

  // ----- the same version on both sides -----

  lemma {:induction false} AdaptArgsAlike(env: Env, ts: seq<Type>, vs: seq<Val>)
    requires |ts| == |vs| && ArgsOk(env, ts, vs)
    ensures KnowsArgs(env, ts, vs) && SharedArgs(env, env, ts)
    ensures AllAlike(vs, AdaptArgs(env, ts, vs)) <==> AllApart(vs)
  {
    hide HasType, Adapt, Knows, Shared, Alike, ApartIn;
    if ts != [] {
      AdaptAlike(env, ts[0], vs[0]);
      KnowsOwn(env, ts[0], vs[0]);
      SharedSame(env, ts[0]);
      KnowsStep(env, ts, vs);
      AdaptArgsAlike(env, ts[1..], vs[1..]);
    }
  }

  /** Two lists of values where one is what became of the other on a trip: alike if and only
      if no raw map lost a key, and equal if there are none. */
  ghost predicate Arrived(vs: seq<Val>, rs: seq<Val>) {
    (AllAlike(vs, rs) <==> AllApart(vs)) && (AllSettled(vs) ==> rs == vs)
  }

  lemma AdaptArgsArrive(env: Env, ts: seq<Type>, vs: seq<Val>)
    requires |ts| == |vs| && ArgsOk(env, ts, vs)
    ensures Arrived(vs, AdaptArgs(env, ts, vs))
  {
    hide AllAlike, AllApart, AllSettled, AdaptArgs, ArgsOk;
    AdaptArgsAlike(env, ts, vs);
    if AllSettled(vs) {
      AllAlikeIsEqual(vs, AdaptArgs(env, ts, vs));
    }
  }

  /** Generated proxy and handler of one model: the implementation of the called method gets
      the caller's arguments and the caller its results, each alike exactly if no raw map in
      them has two keys that come back as one. */
  lemma CallExact(env: Env, iface: Interface, impl: (nat, seq<Val>) -> Outcome, i: nat, args: seq<Val>)
    requires i < |iface.methods| && DistinctCodes(iface.methods) && TextFits(iface.descriptor)
    requires var m := iface.methods[i];
             !m.oneway && |m.inputs| == |args| && ArgsOk(env, m.inputs, args)
             && |EncArgs(env, m.inputs, args)| <= MAX_INT32
    requires var m := iface.methods[i];
             var out := impl(i, AdaptArgs(env, m.inputs, args));
             out.Returned? && |Replies(m)| == |out.results| && ArgsOk(env, Replies(m), out.results)
             && |EncArgs(env, Replies(m), out.results)| <= MAX_INT32
    ensures var m := iface.methods[i];
            var call := Invocation(env, iface, m.code, Request(env, iface, m, args), RequestRows(env, iface, m, args));
            call.Some? && call.value.0 == i && Arrived(args, call.value.1)
            && impl(i, call.value.1).Returned?
            && Call(env, env, iface, impl, m, args).Results?
            && Arrived(impl(i, call.value.1).results, Call(env, env, iface, impl, m, args).values)
  {
    hide Skew, SharedArgs, KnowsArgs, EncArgs, RowsArgs, RequestRows, Held, DecArgs, ArgsOk, AdaptArgs, Replies;
    hide Call, Request, Invocation, Arrived, TextFits;
    var m := iface.methods[i];
    var got := AdaptArgs(env, m.inputs, args);
    var results := impl(i, got).results;
    SkewRefl(env);
    AdaptArgsAlike(env, m.inputs, args);
    AdaptArgsArrive(env, m.inputs, args);
    AdaptArgsAlike(env, Replies(m), results);
    AdaptArgsArrive(env, Replies(m), results);
    RequestHeld(env, iface, m, args);
    CallArrives(env, env, iface, i, args, RequestRows(env, iface, m, args));
    CallReturns(env, env, iface, impl, i, args);
  }

  /** A oneway call reaches the implementation in the same way and returns nothing. */
  lemma OnewayCall(proxy: Env, handler: Env, iface: Interface, impl: (nat, seq<Val>) -> Outcome, i: nat, args: seq<Val>)
    requires i < |iface.methods| && DistinctCodes(iface.methods) && TextFits(iface.descriptor)
    requires Skew(proxy, handler) && SharedArgs(proxy, handler, iface.methods[i].inputs)
    requires var m := iface.methods[i];
             m.oneway && |m.inputs| == |args| && ArgsOk(proxy, m.inputs, args)
             && |EncArgs(proxy, m.inputs, args)| <= MAX_INT32
    ensures var m := iface.methods[i];
            Call(proxy, handler, iface, impl, m, args)
            == if KnowsArgs(handler, m.inputs, args) && impl(i, AdaptArgs(handler, m.inputs, args)).Returned?
               then Results([]) else Broken
  {
    hide Skew, SharedArgs, KnowsArgs, EncArgs, RowsArgs, RequestRows, Held;
    hide DecArgs, ArgsOk, AdaptArgs, Request, Invocation, TextFits;
    RequestHeld(proxy, iface, iface.methods[i], args);
    CallArrives(proxy, handler, iface, i, args, RequestRows(proxy, iface, iface.methods[i], args));
  }
}
