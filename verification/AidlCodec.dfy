/** The writers and readers that generated code consists of, as functions directed by
    types: what is written for a value, and what is read back, possibly by code generated
    from another version of the definitions. */
module AidlCodec {
  import opened Bytes
  import opened Common
  import opened Objects
  import opened Wire
  import opened AidlTypes
  import D = DynamicValues
  import Utf16

  // ----- values that can be written -----

  /** The value belongs to the type and every length in it fits its 32-bit count. */
  predicate HasType(env: Env, t: Type, v: Val)
    decreases v, 1
  {
    match t
    case Basic(p) => v.Num? && InPrim(p, v.n)
    case Enum(e) => e in env && env[e].Backed? && v.Num? && InPrim(env[e].prim, v.n)
    case Text(nullable) => if v.Nil? then nullable else v.Str? && TextFits(v.s)
    case Parcelable(n, nullable) => if v.Nil? then nullable else BodyOk(env, n, v)
    case Union(n, nullable) => if v.Nil? then nullable else ChoiceOk(env, n, v)
    case Slice(e) => v.Nil? || (v.Items? && |v.items| <= MAX_INT32 && AllOk(env, e, v.items))
    case Array(len, e) => v.Items? && |v.items| == len <= MAX_INT32 && AllOk(env, e, v.items)
    case Map(k, e) =>
      v.Nil? || (v.Dict? && |v.keys| == |v.vals| <= MAX_INT32 && KeysOk(env, k, v.keys) && AllOk(env, e, v.vals))
    case Raw => v.Nil? || (v.Tree? && RawOk(v.entries))
    case Strong => v.Nil? || (v.Bind? && v.ref.Proper())
  }

  predicate BodyOk(env: Env, n: string, v: Val)
    decreases v, 0
  {
    n in env
    && match env[n]
       case Struct(fs, _) => v.Record? && FieldsOk(env, fs, v.fields)
       case Opaque => v.Bytes? && |v.raw| <= MAX_INT32
       case _ => false
  }

  predicate ChoiceOk(env: Env, n: string, v: Val)
    decreases v, 0
  {
    n in env && env[n].Choice? && v.Variant? && v.tag < |env[n].variants| && v.tag <= MAX_INT32
    && HasType(env, env[n].variants[v.tag], v.value)
  }

  predicate AllOk(env: Env, t: Type, vs: seq<Val>)
    decreases vs
  {
    vs == [] || (HasType(env, t, vs[0]) && AllOk(env, t, vs[1..]))
  }

  predicate FieldsOk(env: Env, fs: seq<Field>, vs: seq<Val>)
    decreases vs
  {
    if vs == [] then fs == [] else fs != [] && HasType(env, fs[0].typ, vs[0]) && FieldsOk(env, fs[1..], vs[1..])
  }

  predicate KeyOk(env: Env, t: Type, k: Key) {
    KeyType(env, t)
    && match t
       case Basic(p) => k.KNum? && InPrim(p, k.n)
       case Enum(e) => k.KNum? && InPrim(env[e].prim, k.n)
       case _ => k.KText? && TextFits(k.s)
  }

  predicate KeysOk(env: Env, t: Type, ks: seq<Key>) {
    ks == [] || (KeyOk(env, t, ks[0]) && KeysOk(env, t, ks[1..]))
  }

  /** A raw map has each of its keys once, as every Go map. */
  predicate RawOk(es: seq<D.Entry>) {
    |es| <= MAX_INT32 && D.EntriesWritable(es) && D.EntriesSized(es) && D.EntriesWalk(es)
  }

  // ----- encoding -----

  function EncPrim(p: Prim, n: int): (r: seq<byte>)
    requires InPrim(p, n)
    ensures |r| >= 4
  {
    match p
    case Bool => EncBool(n != 0)
    case Byte => EncByte(n)
    case Char => EncChar(n)
    case Int32 => EncI32(n)
    case Int64 => EncI64(n)
    case Float32 => LE32(n)
    case Float64 => LE64(n)
  }

  function EncKey(env: Env, t: Type, k: Key): (r: seq<byte>)
    requires KeyOk(env, t, k)
    ensures |r| >= 4
  {
    match t
    case Basic(p) => EncPrim(p, k.n)
    case Enum(e) => EncPrim(env[e].prim, k.n)
    case _ => EncText(k.s)
  }

  /** A structured parcelable: its own size, four bytes included, then its fields. */
  function Sized(body: seq<byte>): (r: seq<byte>)
    ensures |r| == 4 + |body|
  {
    EncCount(4 + |body|) + body
  }

  function Enc(env: Env, t: Type, v: Val): (r: seq<byte>)
    requires HasType(env, t, v)
    ensures |r| >= 4
    decreases v, 1
  {
    match t
    case Basic(p) => EncPrim(p, v.n)
    case Enum(e) => EncPrim(env[e].prim, v.n)
    case Text(_) => if v.Nil? then EncI32(-1) else EncText(v.s)
    case Parcelable(n, nullable) =>
      if v.Nil? then EncI32(0) else (if nullable then EncI32(1) else []) + EncBody(env, n, v)
    case Union(n, nullable) =>
      if v.Nil? then EncI32(0) else (if nullable then EncI32(1) else []) + EncChoice(env, n, v)
    case Slice(e) => if v.Nil? then EncI32(-1) else EncCount(|v.items|) + EncAll(env, e, v.items)
    case Array(_, e) => EncCount(|v.items|) + EncAll(env, e, v.items)
    case Map(k, e) => if v.Nil? then EncI32(-1) else EncCount(|v.keys|) + EncDict(env, k, e, v.keys, v.vals)
    case Raw => if v.Nil? then EncI32(-1) else EncCount(|v.entries|) + D.EncEntries(v.entries)
    case Strong => EncBinder(if v.Nil? then Null else v.ref)
  }

  function EncBody(env: Env, n: string, v: Val): (r: seq<byte>)
    requires BodyOk(env, n, v)
    ensures |r| >= 4
    decreases v, 0
  {
    match env[n]
    case Struct(fs, _) => Sized(EncFields(env, fs, v.fields))
    case Opaque => EncRaw(v.raw)
  }

  function EncChoice(env: Env, n: string, v: Val): (r: seq<byte>)
    requires ChoiceOk(env, n, v)
    ensures |r| >= 4
    decreases v, 0
  {
    EncCount(v.tag) + EncIn(env, env[n].variants[v.tag], v.value)
  }

  /** In a field, an element or an argument: with the presence word. */
  function EncIn(env: Env, t: Type, v: Val): (r: seq<byte>)
    requires HasType(env, t, v)
    ensures |r| >= 4
    decreases v, 2
  {
    if TypedObject(t) && !t.nullable then EncI32(1) + Enc(env, t, v) else Enc(env, t, v)
  }

  function EncAll(env: Env, t: Type, vs: seq<Val>): seq<byte>
    requires AllOk(env, t, vs)
    decreases vs
  {
    if vs == [] then [] else EncIn(env, t, vs[0]) + EncAll(env, t, vs[1..])
  }

  function EncFields(env: Env, fs: seq<Field>, vs: seq<Val>): (r: seq<byte>)
    requires FieldsOk(env, fs, vs)
    ensures vs != [] ==> |r| >= 4
    decreases vs
  {
    if vs == [] then [] else EncIn(env, fs[0].typ, vs[0]) + EncFields(env, fs[1..], vs[1..])
  }

  function EncDict(env: Env, k: Type, t: Type, ks: seq<Key>, vs: seq<Val>): seq<byte>
    requires |ks| == |vs| && KeysOk(env, k, ks) && AllOk(env, t, vs)
    decreases vs
  {
    if vs == [] then []
    else EncKey(env, k, ks[0]) + (EncIn(env, t, vs[0]) + EncDict(env, k, t, ks[1..], vs[1..]))
  }

  // ----- the object table -----

  /** The rows of the table that writing a value at `pos` adds. */
  function RowsOf(env: Env, t: Type, v: Val, pos: nat): seq<ObjectRef>
    requires HasType(env, t, v)
    decreases v, 1
  {
    match t
    case Parcelable(n, nullable) => if v.Nil? then [] else RowsBody(env, n, v, if nullable then pos + 4 else pos)
    case Union(n, nullable) => if v.Nil? then [] else RowsChoice(env, n, v, if nullable then pos + 4 else pos)
    case Slice(e) => if v.Nil? then [] else RowsAll(env, e, v.items, pos + 4)
    case Array(_, e) => RowsAll(env, e, v.items, pos + 4)
    case Map(k, e) => if v.Nil? then [] else RowsDict(env, k, e, v.keys, v.vals, pos + 4)
    case Raw => if v.Nil? then [] else D.RowsOfEntries(v.entries, pos + 4)
    case Strong => if v.Nil? then [] else BinderRows(v.ref, pos)
    case _ => []
  }

  function RowsBody(env: Env, n: string, v: Val, pos: nat): seq<ObjectRef>
    requires BodyOk(env, n, v)
    decreases v, 0
  {
    match env[n]
    case Struct(fs, _) => RowsFields(env, fs, v.fields, pos + 4)
    case Opaque => []
  }

  function RowsChoice(env: Env, n: string, v: Val, pos: nat): seq<ObjectRef>
    requires ChoiceOk(env, n, v)
    decreases v, 0
  {
    RowsIn(env, env[n].variants[v.tag], v.value, pos + 4)
  }

  function RowsIn(env: Env, t: Type, v: Val, pos: nat): seq<ObjectRef>
    requires HasType(env, t, v)
    decreases v, 2
  {
    RowsOf(env, t, v, if TypedObject(t) && !t.nullable then pos + 4 else pos)
  }

  function RowsAll(env: Env, t: Type, vs: seq<Val>, pos: nat): seq<ObjectRef>
    requires AllOk(env, t, vs)
    decreases vs
  {
    if vs == [] then []
    else RowsIn(env, t, vs[0], pos) + RowsAll(env, t, vs[1..], pos + |EncIn(env, t, vs[0])|)
  }

  function RowsFields(env: Env, fs: seq<Field>, vs: seq<Val>, pos: nat): seq<ObjectRef>
    requires FieldsOk(env, fs, vs)
    decreases vs
  {
    if vs == [] then []
    else RowsIn(env, fs[0].typ, vs[0], pos) + RowsFields(env, fs[1..], vs[1..], pos + |EncIn(env, fs[0].typ, vs[0])|)
  }

  function RowsDict(env: Env, k: Type, t: Type, ks: seq<Key>, vs: seq<Val>, pos: nat): seq<ObjectRef>
    requires |ks| == |vs| && KeysOk(env, k, ks) && AllOk(env, t, vs)
    decreases vs
  {
    if vs == [] then []
    else
      var mid := pos + |EncKey(env, k, ks[0])|;
      RowsIn(env, t, vs[0], mid) + RowsDict(env, k, t, ks[1..], vs[1..], mid + |EncIn(env, t, vs[0])|)
  }

  // ----- decoding -----

  function DecPrim(p: Prim, b: seq<byte>, pos: nat): (r: Read<int>)
    ensures r.Ok? ==> pos + 4 <= r.pos <= |b| && InPrim(p, r.value)
  {
    match p
    case Bool => (var (v, q) :- ReadBool(b, pos); Ok(if v then 1 else 0, q))
    case Byte => (var (v, q) :- ReadByte(b, pos); Ok(v, q))
    case Char => (var (v, q) :- ReadChar(b, pos); Ok(v, q))
    case Int32 => (var (v, q) :- ReadI32(b, pos); Ok(v, q))
    case Int64 => (var (v, q) :- ReadI64(b, pos); Ok(v, q))
    case Float32 => (var (v, q) :- ReadU32(b, pos); Ok(v, q))
    case Float64 => (var (v, q) :- ReadI64(b, pos); Ok(ToU64(v), q))
  }

  /** A key of a type that Go cannot compare does not occur in generated code. */
  function DecKey(env: Env, t: Type, b: seq<byte>, pos: nat): (r: Read<Key>)
    ensures r.Ok? ==> pos + 4 <= r.pos <= |b|
  {
    match t
    case Basic(p) => (var (n, q) :- DecPrim(p, b, pos); Ok(KNum(n), q))
    case Enum(e) =>
      if e in env && env[e].Backed? then (var (n, q) :- DecPrim(env[e].prim, b, pos); Ok(KNum(n), q)) else Fail
    case Text(false) => (var (s, q) :- ReadText(b, pos); Ok(KText(s), q))
    case _ => Fail
  }

  function Dec(env: Env, t: Type, b: seq<byte>, objs: seq<ObjectRef>, pos: nat): (r: Read<Val>)
    requires pos <= |b|
    ensures r.Ok? ==> pos <= r.pos <= |b|
    decreases |b| - pos, 1, 0
  {
    match t
    case Basic(p) => (var (n, q) :- DecPrim(p, b, pos); Ok(Num(n), q))
    case Enum(e) =>
      if e in env && env[e].Backed? then (var (n, q) :- DecPrim(env[e].prim, b, pos); Ok(Num(n), q)) else Fail
    case Text(nullable) =>
      var (s, q) :- ReadNullableText(b, pos);
      if s.Some? then Ok(Val.Str(s.value), q) else if nullable then Ok(Nil, q) else Fail
    case Parcelable(n, nullable) =>
      if !nullable then DecBody(env, n, b, objs, pos)
      else
        var (present, q) :- ReadI32(b, pos);
        if present == 0 then Ok(Nil, q) else DecBody(env, n, b, objs, q)
    case Union(n, nullable) =>
      if !nullable then DecChoice(env, n, b, objs, pos)
      else
        var (present, q) :- ReadI32(b, pos);
        if present == 0 then Ok(Nil, q) else DecChoice(env, n, b, objs, q)
    case Slice(e) =>
      var (n, q) :- ReadI32(b, pos);
      if n < 0 then Ok(Nil, q) else (var (vs, q2) :- DecAll(env, e, b, objs, q, n); Ok(Items(vs), q2))
    case Array(len, e) =>
      var (n, q) :- ReadI32(b, pos);
      if n < 0 then Fail
      else
        var (vs, q2) :- DecAll(env, e, b, objs, q, n);
        if |vs| == len then Ok(Items(vs), q2) else Fail
    case Map(k, e) =>
      var (n, q) :- ReadI32(b, pos);
      if n < 0 then Ok(Nil, q) else (var (d, q2) :- DecDict(env, k, e, b, objs, q, n); Ok(Dict(d.0, d.1), q2))
    case Raw =>
      var (n, q) :- ReadI32(b, pos);
      if n < 0 then Ok(Nil, q) else (var (m, q2) :- D.DecEntries(b, objs, q, n); Ok(Dyn(m), q2))
    case Strong =>
      var (r, q) :- ReadBinder(b, objs, pos);
      Ok(if r.Null? then Nil else Bind(r), q)
  }

  /** A structured parcelable takes its fields until the announced size is used up, then
      skips to the announced end; what was not read keeps its initial value. */
  function DecBody(env: Env, n: string, b: seq<byte>, objs: seq<ObjectRef>, pos: nat): (r: Read<Val>)
    requires pos <= |b|
    ensures r.Ok? ==> pos <= r.pos <= |b|
    decreases |b| - pos, 0, 0
  {
    if n !in env then Fail
    else
      match env[n]
      case Struct(fs, _) =>
        var (size, q) :- ReadI32(b, pos);
        if size < 0 then Ok(Record(Inits(fs)), q)
        else if pos + size > |b| then Fail
        else
          var (vs, _) :- DecFields(env, fs, b, objs, q, pos + size);
          Ok(Record(vs), pos + size)
      case Opaque =>
        var (size, q) :- ReadI32(b, pos);
        if size < 0 then Fail else (var (raw, q2) :- ReadBlock(b, q, size); Ok(Bytes(raw), q2))
      case _ => Fail
  }

  function DecChoice(env: Env, n: string, b: seq<byte>, objs: seq<ObjectRef>, pos: nat): (r: Read<Val>)
    requires pos <= |b|
    ensures r.Ok? ==> pos <= r.pos <= |b|
    decreases |b| - pos, 0, 0
  {
    var (tag, q) :- ReadI32(b, pos);
    if n in env && env[n].Choice? && 0 <= tag < |env[n].variants| then
      var (v, q2) :- DecIn(env, env[n].variants[tag], b, objs, q);
      Ok(Variant(tag, v), q2)
    else Fail
  }

  function Zero(env: Env, t: Type): Val {
    if TypedObject(t) && t.name in env then
      match env[t.name]
      case Struct(_, zero) => zero
      case Choice(_, zero) => zero
      case _ => Bytes([])
    else Nil
  }

  function DecIn(env: Env, t: Type, b: seq<byte>, objs: seq<ObjectRef>, pos: nat): (r: Read<Val>)
    requires pos <= |b|
    ensures r.Ok? ==> pos <= r.pos <= |b|
    decreases |b| - pos, 2, 0
  {
    if TypedObject(t) && !t.nullable then
      var (present, q) :- ReadI32(b, pos);
      if present == 0 then Ok(Zero(env, t), q) else Dec(env, t, b, objs, q)
    else Dec(env, t, b, objs, pos)
  }

  function DecAll(env: Env, t: Type, b: seq<byte>, objs: seq<ObjectRef>, pos: nat, n: nat): (r: Read<seq<Val>>)
    requires pos <= |b|
    ensures r.Ok? ==> pos <= r.pos <= |b| && |r.value| == n
    decreases |b| - pos, 3, n
  {
    if n == 0 then Ok([], pos)
    else
      var (v, q) :- DecIn(env, t, b, objs, pos);
      var (vs, q2) :- DecAll(env, t, b, objs, q, n - 1);
      Ok([v] + vs, q2)
  }

  function DecFields(
    env: Env, fs: seq<Field>, b: seq<byte>, objs: seq<ObjectRef>, pos: nat, end: nat): (r: Read<seq<Val>>)
    requires pos <= |b|
    ensures r.Ok? ==> pos <= r.pos <= |b| && |r.value| == |fs|
    decreases |b| - pos, 3, |fs|
  {
    if fs == [] then Ok([], pos)
    else
      var (v, q) :- DecIn(env, fs[0].typ, b, objs, pos);
      if q >= end then Ok([v] + Inits(fs[1..]), q)
      else
        var (vs, q2) :- DecFields(env, fs[1..], b, objs, q, end);
        Ok([v] + vs, q2)
  }

  function DecDict(
    env: Env, k: Type, t: Type, b: seq<byte>, objs: seq<ObjectRef>, pos: nat, n: nat): (r: Read<(seq<Key>, seq<Val>)>)
    requires pos <= |b|
    ensures r.Ok? ==> pos <= r.pos <= |b| && |r.value.0| == |r.value.1| == n
    decreases |b| - pos, 3, n
  {
    if n == 0 then Ok(([], []), pos)
    else
      var (key, q) :- DecKey(env, k, b, pos);
      var (v, q2) :- DecIn(env, t, b, objs, q);
      var (d, q3) :- DecDict(env, k, t, b, objs, q2, n - 1);
      Ok(([key] + d.0, [v] + d.1), q3)
  }

  // ----- two versions of the definitions -----

  /** The reader has every name of the type that the writer has. Names that neither has can
      only stand where a value is absent. */
  predicate Shared(w: Env, r: Env, t: Type) {
    match t
    case Enum(n) => n in w ==> n in r
    case Parcelable(n, _) => n in w ==> n in r
    case Union(n, _) => n in w ==> n in r
    case Slice(e) => Shared(w, r, e)
    case Array(_, e) => Shared(w, r, e)
    case Map(k, e) => Shared(w, r, k) && Shared(w, r, e)
    case _ => true
  }

  /** Fields are only ever added at the end; those that only one side has may be of types that
      only that side declares. The writer's structure must not be empty when the reader's is
      not: the reader takes its first field before it looks at the size. */
  predicate FieldsSkew(w: Env, r: Env, ws: seq<Field>, rs: seq<Field>) {
    (forall i :: 0 <= i < |ws| && i < |rs| ==> ws[i].typ == rs[i].typ && Shared(w, r, ws[i].typ))
    && (ws == [] ==> rs == [])
  }

  /** Variants, too, are only added at the end, on either side. */
  predicate VariantsSkew(w: Env, r: Env, ws: seq<Type>, rs: seq<Type>) {
    forall i :: 0 <= i < |ws| && i < |rs| ==> ws[i] == rs[i] && Shared(w, r, ws[i])
  }

  predicate DeclSkew(w: Env, r: Env, d: Decl, e: Decl) {
    match d
    case Struct(ws, _) => e.Struct? && FieldsSkew(w, r, ws, e.fields)
    case Opaque => e.Opaque?
    case Choice(vs, _) => e.Choice? && VariantsSkew(w, r, vs, e.variants)
    case Backed(p) => e == d
  }

  /** Code generated from `r` may read what code generated from `w` wrote: what both declare
      fits together. Either may declare what the other does not. */
  predicate Skew(w: Env, r: Env) { forall n :: n in w && n in r ==> DeclSkew(w, r, w[n], r[n]) }

  /** What the reader makes of a value: the fields both sides know, and the initial value of
      those the writer does not know. Raw maps come back as dynamic values. */
  function Adapt(env: Env, t: Type, v: Val): Val
    decreases v, 0
  {
    match t
    case Parcelable(n, _) =>
      if v.Record? && n in env && env[n].Struct? then Record(AdaptFields(env, env[n].fields, v.fields)) else v
    case Union(n, _) =>
      if v.Variant? && n in env && env[n].Choice? && v.tag < |env[n].variants|
      then Variant(v.tag, Adapt(env, env[n].variants[v.tag], v.value))
      else v
    case Slice(e) => if v.Items? then Items(AdaptAll(env, e, v.items)) else v
    case Array(_, e) => if v.Items? then Items(AdaptAll(env, e, v.items)) else v
    case Map(_, e) => if v.Dict? then Dict(v.keys, AdaptAll(env, e, v.vals)) else v
    case Raw => if v.Tree? then Dyn(D.ReturnedEntries(v.entries)) else v
    case _ => v
  }

  function AdaptAll(env: Env, t: Type, vs: seq<Val>): (r: seq<Val>)
    ensures |r| == |vs|
    decreases vs
  {
    if vs == [] then [] else [Adapt(env, t, vs[0])] + AdaptAll(env, t, vs[1..])
  }

  function AdaptFields(env: Env, fs: seq<Field>, vs: seq<Val>): (r: seq<Val>)
    ensures |r| == |fs|
    decreases vs
  {
    if fs == [] then []
    else if vs == [] then Inits(fs)
    else [Adapt(env, fs[0].typ, vs[0])] + AdaptFields(env, fs[1..], vs[1..])
  }

  /** In the part of the value that the reader looks at, it knows the variant of every union. */
  predicate Knows(env: Env, t: Type, v: Val)
    decreases v, 0
  {
    match t
    case Parcelable(n, _) => v.Record? && n in env && env[n].Struct? ==> KnowsFields(env, env[n].fields, v.fields)
    case Union(n, _) =>
      v.Variant? && n in env && env[n].Choice? ==>
        v.tag < |env[n].variants| && Knows(env, env[n].variants[v.tag], v.value)
    case Slice(e) => v.Items? ==> KnowsAll(env, e, v.items)
    case Array(_, e) => v.Items? ==> KnowsAll(env, e, v.items)
    case Map(_, e) => v.Dict? ==> KnowsAll(env, e, v.vals)
    case _ => true
  }

  predicate KnowsAll(env: Env, t: Type, vs: seq<Val>)
    decreases vs
  {
    vs == [] || (Knows(env, t, vs[0]) && KnowsAll(env, t, vs[1..]))
  }

  predicate KnowsFields(env: Env, fs: seq<Field>, vs: seq<Val>)
    decreases vs
  {
    fs == [] || vs == [] || (Knows(env, fs[0].typ, vs[0]) && KnowsFields(env, fs[1..], vs[1..]))
  }

  /** What the reader returns for a value whose encoding ends at `end`. */
  function Recovered(env: Env, t: Type, v: Val, end: nat): Read<Val> {
    if Knows(env, t, v) then Ok(Adapt(env, t, v), end) else Fail
  }

  // ----- reading what was written -----

  lemma DecPrimAt(p: Prim, n: int, b: seq<byte>, pos: nat)
    requires InPrim(p, n) && At(b, pos, EncPrim(p, n))
    ensures DecPrim(p, b, pos) == Ok(n, pos + |EncPrim(p, n)|)
  {
    hide At, ReadI32, ReadI64, ReadU32, ReadBool, ReadByte, ReadChar;
    hide EncI32, EncI64, EncBool, EncByte, EncChar, LE32, LE64;
    match p
    case Bool => ReadBoolAt(b, pos, n != 0);
    case Byte => ReadByteAt(b, pos, n);
    case Char => ReadCharAt(b, pos, n);
    case Int32 => ReadI32At(b, pos, n);
    case Int64 => ReadI64At(b, pos, n);
    case Float32 => ReadU32At(b, pos, n);
    case Float64 => D.ReadU64At(b, pos, n);
  }

  lemma DecKeyAt(w: Env, r: Env, t: Type, k: Key, b: seq<byte>, pos: nat)
    requires Skew(w, r) && Shared(w, r, t) && KeyOk(w, t, k) && At(b, pos, EncKey(w, t, k))
    ensures DecKey(r, t, b, pos) == Ok(k, pos + |EncKey(w, t, k)|)
  {
    hide At, EncPrim, DecPrim, EncText, ReadText, InPrim, TextFits;
    match t
    case Basic(p) => DecPrimAt(p, k.n, b, pos);
    case Enum(e) => DecPrimAt(w[e].prim, k.n, b, pos);
    case Text(_) => ReadTextAt(b, pos, k.s);
    case _ =>
  }

  /** Every value of every type, nested as deep as it may be: the reader of one version
      recovers from what the writer of another version wrote exactly the adapted value, and
      stops where the writer stopped, whatever surrounds the encoding; it fails if and only if
      it comes upon a variant of a union that it does not know. */
  lemma {:induction false} DecEnc(w: Env, r: Env, t: Type, v: Val, b: seq<byte>, objs: seq<ObjectRef>, pos: nat)
    requires Skew(w, r) && Shared(w, r, t) && HasType(w, t, v) && |Enc(w, t, v)| <= MAX_INT32
    requires pos <= |b| && At(b, pos, Enc(w, t, v)) && Held(objs, RowsOf(w, t, v, pos))
    ensures Dec(r, t, b, objs, pos) == Recovered(r, t, v, pos + |Enc(w, t, v)|)
    decreases v, 2
  {
    hide At, EncI32, EncCount, ReadI32, EncPrim, DecPrim, EncText, ReadNullableText, InPrim, TextFits, Skew, RawOk;
    hide AllOk, KeysOk, EncAll, EncDict, DecAll, DecDict, BodyOk, EncBody, DecBody, ChoiceOk, EncChoice, DecChoice;
    hide Held, ReadBinder, EncBinder;
    match t
    case Basic(p) => DecPrimAt(p, v.n, b, pos);
    case Enum(e) =>
      SkewAt(w, r, e);
      assert r[e] == w[e];
      DecPrimAt(w[e].prim, v.n, b, pos);
    case Text(_) =>
      if v.Nil? {
        NilTextAt(b, pos);
      } else {
        ReadTextAt(b, pos, v.s);
      }
    case Parcelable(_, _) => DecEncParcelable(w, r, t, v, b, objs, pos);
    case Union(_, _) => DecEncUnion(w, r, t, v, b, objs, pos);
    case Slice(_) => DecEncList(w, r, t, v, b, objs, pos);
    case Array(_, _) => DecEncList(w, r, t, v, b, objs, pos);
    case Map(_, _) => DecEncMap(w, r, t, v, b, objs, pos);
    case Raw => DecEncRawMap(w, r, t, v, b, objs, pos);
    case Strong => ReadBinderAt(b, objs, pos, if v.Nil? then Null else v.ref);
  }

  lemma {:induction false} DecEncParcelable(
    w: Env, r: Env, t: Type, v: Val, b: seq<byte>, objs: seq<ObjectRef>, pos: nat)
    requires t.Parcelable?
    requires Skew(w, r) && Shared(w, r, t) && HasType(w, t, v) && |Enc(w, t, v)| <= MAX_INT32
    requires pos <= |b| && At(b, pos, Enc(w, t, v)) && Held(objs, RowsOf(w, t, v, pos))
    ensures Dec(r, t, b, objs, pos) == Recovered(r, t, v, pos + |Enc(w, t, v)|)
    decreases v, 1
  {
    hide At, EncI32, ReadI32, Skew, BodyOk, EncBody, DecBody, Held, RowsBody, RowsChoice;
    if v.Nil? {
      ReadI32At(b, pos, 0);
    } else {
      PresentAt(t.nullable, EncBody(w, t.name, v), b, pos);
      OkDeclared(w, t.name, v);
      DecEncBody(w, r, t.name, v, b, objs, if t.nullable then pos + 4 else pos);
    }
  }

  lemma {:induction false} DecEncUnion(w: Env, r: Env, t: Type, v: Val, b: seq<byte>, objs: seq<ObjectRef>, pos: nat)
    requires t.Union?
    requires Skew(w, r) && Shared(w, r, t) && HasType(w, t, v) && |Enc(w, t, v)| <= MAX_INT32
    requires pos <= |b| && At(b, pos, Enc(w, t, v)) && Held(objs, RowsOf(w, t, v, pos))
    ensures Dec(r, t, b, objs, pos) == Recovered(r, t, v, pos + |Enc(w, t, v)|)
    decreases v, 1
  {
    hide At, EncI32, ReadI32, Skew, ChoiceOk, EncChoice, DecChoice, Held, RowsBody, RowsChoice;
    if v.Nil? {
      ReadI32At(b, pos, 0);
    } else {
      PresentAt(t.nullable, EncChoice(w, t.name, v), b, pos);
      OkDeclared(w, t.name, v);
      DecEncChoice(w, r, t.name, v, b, objs, if t.nullable then pos + 4 else pos);
    }
  }

  lemma {:induction false} DecEncList(w: Env, r: Env, t: Type, v: Val, b: seq<byte>, objs: seq<ObjectRef>, pos: nat)
    requires t.Slice? || t.Array?
    requires Skew(w, r) && Shared(w, r, t) && HasType(w, t, v) && |Enc(w, t, v)| <= MAX_INT32
    requires pos <= |b| && At(b, pos, Enc(w, t, v)) && Held(objs, RowsOf(w, t, v, pos))
    ensures Dec(r, t, b, objs, pos) == Recovered(r, t, v, pos + |Enc(w, t, v)|)
    decreases v, 1
  {
    hide At, EncI32, EncCount, ReadI32, Skew, AllOk, EncAll, DecAll, AdaptAll, KnowsAll, RowsAll, Held;
    if v.Nil? {
      ReadI32At(b, pos, -1);
    } else {
      CountAt(|v.items|, EncAll(w, t.elem, v.items), b, pos);
      DecEncAll(w, r, t.elem, v.items, b, objs, pos + 4);
    }
  }

  lemma {:induction false} DecEncMap(w: Env, r: Env, t: Type, v: Val, b: seq<byte>, objs: seq<ObjectRef>, pos: nat)
    requires t.Map?
    requires Skew(w, r) && Shared(w, r, t) && HasType(w, t, v) && |Enc(w, t, v)| <= MAX_INT32
    requires pos <= |b| && At(b, pos, Enc(w, t, v)) && Held(objs, RowsOf(w, t, v, pos))
    ensures Dec(r, t, b, objs, pos) == Recovered(r, t, v, pos + |Enc(w, t, v)|)
    decreases v, 1
  {
    hide At, EncI32, EncCount, ReadI32, Skew, AllOk, KeysOk, EncDict, DecDict, AdaptAll, KnowsAll, RowsDict, Held;
    if v.Nil? {
      ReadI32At(b, pos, -1);
    } else {
      CountAt(|v.keys|, EncDict(w, t.key, t.elem, v.keys, v.vals), b, pos);
      DecEncDict(w, r, t.key, t.elem, v.keys, v.vals, b, objs, pos + 4);
    }
  }

  lemma DecEncRawMap(w: Env, r: Env, t: Type, v: Val, b: seq<byte>, objs: seq<ObjectRef>, pos: nat)
    requires t.Raw? && HasType(w, t, v)
    requires pos <= |b| && At(b, pos, Enc(w, t, v)) && Held(objs, RowsOf(w, t, v, pos))
    ensures Dec(r, t, b, objs, pos) == Recovered(r, t, v, pos + |Enc(w, t, v)|)
  {
    hide At, EncI32, EncCount, ReadI32, Held, D.EncEntries, D.DecEntries, D.ReturnedEntries, D.RowsOfEntries;
    if v.Nil? {
      ReadI32At(b, pos, -1);
    } else {
      DecEncRaw(v.entries, b, objs, pos);
    }
  }

  lemma SkewAt(w: Env, r: Env, n: string)
    requires Skew(w, r) && n in w && n in r
    ensures DeclSkew(w, r, w[n], r[n])
  {
  }

  lemma OkDeclared(env: Env, n: string, v: Val)
    ensures BodyOk(env, n, v) || ChoiceOk(env, n, v) ==> n in env
  {
  }

  lemma NilTextAt(b: seq<byte>, pos: nat)
    requires At(b, pos, EncI32(-1))
    ensures ReadNullableText(b, pos) == Ok(None, pos + 4)
  {
    ReadI32At(b, pos, -1);
  }

  lemma PresentAt(present: bool, e: seq<byte>, b: seq<byte>, pos: nat)
    requires At(b, pos, (if present then EncI32(1) else []) + e)
    ensures present ==> ReadI32(b, pos) == Ok(1, pos + 4) && pos + 4 <= |b|
    ensures At(b, if present then pos + 4 else pos, e)
  {
    AtSplit(b, pos, if present then EncI32(1) else [], e);
    if present {
      ReadI32At(b, pos, 1);
    }
  }

  lemma CountAt(n: nat, e: seq<byte>, b: seq<byte>, pos: nat)
    requires n <= MAX_INT32 && At(b, pos, EncCount(n) + e)
    ensures ReadI32(b, pos) == Ok(n, pos + 4) && pos + 4 <= |b| && At(b, pos + 4, e)
  {
    AtSplit(b, pos, EncCount(n), e);
    ReadCountAt(b, pos, n);
  }

  lemma DecEncRaw(es: seq<D.Entry>, b: seq<byte>, objs: seq<ObjectRef>, pos: nat)
    requires RawOk(es) && pos <= |b| && At(b, pos, EncCount(|es|) + D.EncEntries(es))
    requires Held(objs, D.RowsOfEntries(es, pos + 4))
    ensures ReadI32(b, pos) == Ok(|es|, pos + 4) && pos + 4 <= |b|
    ensures D.DecEntries(b, objs, pos + 4, |es|) == Ok(D.ReturnedEntries(es), pos + 4 + |D.EncEntries(es)|)
  {
    hide At, Held, EncCount, ReadI32, D.EncEntries, D.DecEntries, D.RowsOfEntries;
    CountAt(|es|, D.EncEntries(es), b, pos);
    D.DecEncEntries(es, b, objs, pos + 4);
  }

  lemma {:induction false} DecEncIn(w: Env, r: Env, t: Type, v: Val, b: seq<byte>, objs: seq<ObjectRef>, pos: nat)
    requires Skew(w, r) && Shared(w, r, t) && HasType(w, t, v) && |EncIn(w, t, v)| <= MAX_INT32
    requires pos <= |b| && At(b, pos, EncIn(w, t, v)) && Held(objs, RowsIn(w, t, v, pos))
    ensures DecIn(r, t, b, objs, pos) == Recovered(r, t, v, pos + |EncIn(w, t, v)|)
    decreases v, 3
  {
    hide At, Held, RowsOf, EncI32, ReadI32, Enc, Dec, Skew, Shared, HasType, Adapt, Knows, Zero;
    if TypedObject(t) && !t.nullable {
      AtSplit(b, pos, EncI32(1), Enc(w, t, v));
      ReadI32At(b, pos, 1);
      DecEnc(w, r, t, v, b, objs, pos + 4);
    } else {
      DecEnc(w, r, t, v, b, objs, pos);
    }
  }

  lemma {:induction false} DecEncBody(w: Env, r: Env, n: string, v: Val, b: seq<byte>, objs: seq<ObjectRef>, pos: nat)
    requires Skew(w, r) && n in r && BodyOk(w, n, v) && |EncBody(w, n, v)| <= MAX_INT32
    requires pos <= |b| && At(b, pos, EncBody(w, n, v)) && Held(objs, RowsBody(w, n, v, pos))
    ensures DecBody(r, n, b, objs, pos) == Recovered(r, Parcelable(n, false), v, pos + |EncBody(w, n, v)|)
    decreases v, 0
  {
    hide At, Held, RowsFields, EncCount, ReadI32, Skew, FieldsSkew;
    hide FieldsOk, EncFields, DecFields, AdaptFields, KnowsFields;
    SkewAt(w, r, n);
    match w[n]
    case Struct(ws, _) =>
      var body := EncFields(w, ws, v.fields);
      CountAt(4 + |body|, body, b, pos);
      DecEncFields(w, r, ws, r[n].fields, v.fields, b, objs, pos + 4, pos + 4 + |body|);
    case Opaque => OpaqueAt(v.raw, b, pos);
  }

  lemma OpaqueAt(raw: seq<byte>, b: seq<byte>, pos: nat)
    requires |raw| <= MAX_INT32 && At(b, pos, EncRaw(raw))
    ensures ReadI32(b, pos) == Ok(|raw|, pos + 4)
    ensures ReadBlock(b, pos + 4, |raw|) == Ok(raw, pos + |EncRaw(raw)|)
  {
    CountAt(|raw|, Padded(raw), b, pos);
    ReadPadded(b, pos + 4, raw);
  }

  lemma {:induction false} DecEncChoice(w: Env, r: Env, n: string, v: Val, b: seq<byte>, objs: seq<ObjectRef>, pos: nat)
    requires Skew(w, r) && n in r && ChoiceOk(w, n, v) && |EncChoice(w, n, v)| <= MAX_INT32
    requires pos <= |b| && At(b, pos, EncChoice(w, n, v)) && Held(objs, RowsChoice(w, n, v, pos))
    ensures DecChoice(r, n, b, objs, pos) == Recovered(r, Union(n, false), v, pos + |EncChoice(w, n, v)|)
    decreases v, 0
  {
    hide At, Held, RowsIn, EncCount, ReadI32, Skew, Shared, HasType, EncIn, DecIn;
    SkewAt(w, r, n);
    var t := w[n].variants[v.tag];
    CountAt(v.tag, EncIn(w, t, v.value), b, pos);
    if v.tag < |r[n].variants| {
      DecEncIn(w, r, t, v.value, b, objs, pos + 4);
    }
  }

  /** What the reader returns for a list, or for the fields of a structure. */
  function RecoveredAll(env: Env, t: Type, vs: seq<Val>, end: nat): Read<seq<Val>> {
    if KnowsAll(env, t, vs) then Ok(AdaptAll(env, t, vs), end) else Fail
  }

  lemma {:induction false} DecEncAll(
    w: Env, r: Env, t: Type, vs: seq<Val>, b: seq<byte>, objs: seq<ObjectRef>, pos: nat)
    requires Skew(w, r) && Shared(w, r, t) && AllOk(w, t, vs) && |EncAll(w, t, vs)| <= MAX_INT32
    requires pos <= |b| && At(b, pos, EncAll(w, t, vs)) && Held(objs, RowsAll(w, t, vs, pos))
    ensures DecAll(r, t, b, objs, pos, |vs|) == RecoveredAll(r, t, vs, pos + |EncAll(w, t, vs)|)
    decreases vs
  {
    hide At, Held, RowsIn, Skew, Shared, HasType, EncIn, DecIn, Adapt, Knows;
    if vs != [] {
      DecEncItem(w, r, t, vs, b, objs, pos);
    }
  }

  lemma {:induction false} DecEncItem(
    w: Env, r: Env, t: Type, vs: seq<Val>, b: seq<byte>, objs: seq<ObjectRef>, pos: nat)
    requires Skew(w, r) && Shared(w, r, t) && AllOk(w, t, vs) && vs != [] && |EncAll(w, t, vs)| <= MAX_INT32
    requires pos <= |b| && At(b, pos, EncAll(w, t, vs)) && Held(objs, RowsAll(w, t, vs, pos))
    ensures DecAll(r, t, b, objs, pos, |vs|) == RecoveredAll(r, t, vs, pos + |EncAll(w, t, vs)|)
    decreases vs, 0
  {
    hide At, Held, RowsIn, RowsAll, Skew, Shared, HasType, EncIn, DecIn, Adapt, Knows, AllOk, EncAll, DecAll;
    EncAllStep(w, t, vs, pos);
    var q := pos + |EncIn(w, t, vs[0])|;
    HeldSplit(objs, RowsIn(w, t, vs[0], pos), RowsAll(w, t, vs[1..], q));
    AtSplit(b, pos, EncIn(w, t, vs[0]), EncAll(w, t, vs[1..]));
    DecEncIn(w, r, t, vs[0], b, objs, pos);
    DecAllStep(r, t, b, objs, pos, |vs|);
    AtInside(b, q, EncAll(w, t, vs[1..]));
    DecEncAll(w, r, t, vs[1..], b, objs, q);
  }

  lemma AtInside(b: seq<byte>, pos: nat, e: seq<byte>)
    requires At(b, pos, e)
    ensures pos <= |b|
  {
  }

  lemma EncAllStep(env: Env, t: Type, vs: seq<Val>, pos: nat)
    requires AllOk(env, t, vs) && vs != []
    ensures HasType(env, t, vs[0]) && AllOk(env, t, vs[1..])
    ensures EncAll(env, t, vs) == EncIn(env, t, vs[0]) + EncAll(env, t, vs[1..])
    ensures RowsAll(env, t, vs, pos)
      == RowsIn(env, t, vs[0], pos) + RowsAll(env, t, vs[1..], pos + |EncIn(env, t, vs[0])|)
  {
    hide HasType, EncIn, RowsIn;
  }

  lemma DecAllStep(env: Env, t: Type, b: seq<byte>, objs: seq<ObjectRef>, pos: nat, n: nat)
    requires pos <= |b| && n > 0
    ensures var one := DecIn(env, t, b, objs, pos);
            if one.Fail? then DecAll(env, t, b, objs, pos, n) == Fail
            else
              var rest := DecAll(env, t, b, objs, one.pos, n - 1);
              DecAll(env, t, b, objs, pos, n) == if rest.Fail? then Fail else Ok([one.value] + rest.value, rest.pos)
  {
    hide DecIn;
  }

  function RecoveredDict(env: Env, t: Type, ks: seq<Key>, vs: seq<Val>, end: nat): Read<(seq<Key>, seq<Val>)> {
    if KnowsAll(env, t, vs) then Ok((ks, AdaptAll(env, t, vs)), end) else Fail
  }

  lemma {:induction false} DecEncDict(
    w: Env, r: Env, k: Type, t: Type, ks: seq<Key>, vs: seq<Val>, b: seq<byte>, objs: seq<ObjectRef>, pos: nat)
    requires Skew(w, r) && Shared(w, r, k) && Shared(w, r, t) && |ks| == |vs| && KeysOk(w, k, ks) && AllOk(w, t, vs)
    requires |EncDict(w, k, t, ks, vs)| <= MAX_INT32
    requires pos <= |b| && At(b, pos, EncDict(w, k, t, ks, vs)) && Held(objs, RowsDict(w, k, t, ks, vs, pos))
    ensures DecDict(r, k, t, b, objs, pos, |vs|) == RecoveredDict(r, t, ks, vs, pos + |EncDict(w, k, t, ks, vs)|)
    decreases vs
  {
    hide At, Held, RowsIn, Skew, Shared, HasType, EncIn, DecIn, Adapt, Knows, EncKey, DecKey, KeyOk;
    if vs != [] {
      DecEncEntry(w, r, k, t, ks, vs, b, objs, pos);
    }
  }

  lemma {:induction false} DecEncEntry(
    w: Env, r: Env, k: Type, t: Type, ks: seq<Key>, vs: seq<Val>, b: seq<byte>, objs: seq<ObjectRef>, pos: nat)
    requires Skew(w, r) && Shared(w, r, k) && Shared(w, r, t)
    requires |ks| == |vs| && KeysOk(w, k, ks) && AllOk(w, t, vs) && vs != []
    requires |EncDict(w, k, t, ks, vs)| <= MAX_INT32
    requires pos <= |b| && At(b, pos, EncDict(w, k, t, ks, vs)) && Held(objs, RowsDict(w, k, t, ks, vs, pos))
    ensures DecDict(r, k, t, b, objs, pos, |vs|) == RecoveredDict(r, t, ks, vs, pos + |EncDict(w, k, t, ks, vs)|)
    decreases vs, 0
  {
    hide At, Held, RowsIn, RowsDict, Skew, Shared, HasType, EncIn, DecIn, Adapt, Knows, EncKey, DecKey, KeyOk;
    hide EncDict, DecDict, AllOk, KeysOk;
    EncDictStep(w, k, t, ks, vs, pos);
    var q := pos + |EncKey(w, k, ks[0])|;
    var q2 := q + |EncIn(w, t, vs[0])|;
    HeldSplit(objs, RowsIn(w, t, vs[0], q), RowsDict(w, k, t, ks[1..], vs[1..], q2));
    EntryAt(w, r, k, ks[0], EncIn(w, t, vs[0]), EncDict(w, k, t, ks[1..], vs[1..]), b, pos);
    DecEncIn(w, r, t, vs[0], b, objs, q);
    DecEncDict(w, r, k, t, ks[1..], vs[1..], b, objs, q2);
    DecDictStep(r, k, t, b, objs, pos, |vs|);
    assert ks == [ks[0]] + ks[1..];
  }

  lemma EncDictStep(env: Env, k: Type, t: Type, ks: seq<Key>, vs: seq<Val>, pos: nat)
    requires |ks| == |vs| && KeysOk(env, k, ks) && AllOk(env, t, vs) && vs != []
    ensures KeyOk(env, k, ks[0]) && KeysOk(env, k, ks[1..]) && HasType(env, t, vs[0]) && AllOk(env, t, vs[1..])
    ensures EncDict(env, k, t, ks, vs)
         == EncKey(env, k, ks[0]) + (EncIn(env, t, vs[0]) + EncDict(env, k, t, ks[1..], vs[1..]))
    ensures var mid := pos + |EncKey(env, k, ks[0])|;
            RowsDict(env, k, t, ks, vs, pos)
            == RowsIn(env, t, vs[0], mid) + RowsDict(env, k, t, ks[1..], vs[1..], mid + |EncIn(env, t, vs[0])|)
  {
    hide HasType, EncIn, EncKey, KeyOk, RowsIn;
  }

  lemma EntryAt(w: Env, r: Env, k: Type, key: Key, value: seq<byte>, rest: seq<byte>, b: seq<byte>, pos: nat)
    requires Skew(w, r) && Shared(w, r, k) && KeyOk(w, k, key) && At(b, pos, EncKey(w, k, key) + (value + rest))
    ensures var mid := pos + |EncKey(w, k, key)|;
            DecKey(r, k, b, pos) == Ok(key, mid) && mid <= |b| && At(b, mid, value) && At(b, mid + |value|, rest)
            && mid + |value| <= |b|
  {
    hide Skew, Shared, KeyOk, EncKey, DecKey;
    AtSplit(b, pos, EncKey(w, k, key), value + rest);
    AtSplit(b, pos + |EncKey(w, k, key)|, value, rest);
    DecKeyAt(w, r, k, key, b, pos);
  }

  lemma DecDictStep(env: Env, k: Type, t: Type, b: seq<byte>, objs: seq<ObjectRef>, pos: nat, n: nat)
    requires pos <= |b| && n > 0 && DecKey(env, k, b, pos).Ok?
    ensures var key := DecKey(env, k, b, pos);
            var one := DecIn(env, t, b, objs, key.pos);
            if one.Fail? then DecDict(env, k, t, b, objs, pos, n) == Fail
            else
              var rest := DecDict(env, k, t, b, objs, one.pos, n - 1);
              DecDict(env, k, t, b, objs, pos, n)
              == if rest.Fail? then Fail else Ok(([key.value] + rest.value.0, [one.value] + rest.value.1), rest.pos)
  {
    hide DecKey, DecIn;
  }

  lemma EncFieldsStep(env: Env, fs: seq<Field>, vs: seq<Val>, pos: nat)
    requires FieldsOk(env, fs, vs) && vs != []
    ensures fs != [] && HasType(env, fs[0].typ, vs[0]) && FieldsOk(env, fs[1..], vs[1..])
    ensures EncFields(env, fs, vs) == EncIn(env, fs[0].typ, vs[0]) + EncFields(env, fs[1..], vs[1..])
    ensures RowsFields(env, fs, vs, pos)
         == RowsIn(env, fs[0].typ, vs[0], pos) + RowsFields(env, fs[1..], vs[1..], pos + |EncIn(env, fs[0].typ, vs[0])|)
  {
    hide HasType, EncIn, RowsIn;
  }

  lemma NoneLeft(env: Env, b: seq<byte>, objs: seq<ObjectRef>, pos: nat, end: nat)
    requires pos <= |b|
    ensures DecFields(env, [], b, objs, pos, end) == Ok([], pos)
  {
  }

  lemma DecFieldsStep(env: Env, fs: seq<Field>, b: seq<byte>, objs: seq<ObjectRef>, pos: nat, end: nat)
    requires pos <= |b| && fs != []
    ensures var one := DecIn(env, fs[0].typ, b, objs, pos);
            if one.Fail? then DecFields(env, fs, b, objs, pos, end) == Fail
            else if one.pos >= end
              then DecFields(env, fs, b, objs, pos, end) == Ok([one.value] + Inits(fs[1..]), one.pos)
            else
              var rest := DecFields(env, fs[1..], b, objs, one.pos, end);
              DecFields(env, fs, b, objs, pos, end)
              == if rest.Fail? then Fail else Ok([one.value] + rest.value, rest.pos)
  {
    hide DecIn, Inits;
  }

  /** Field by field: the reader stops at the announced end if the writer had fewer fields,
      and at its own last field if the writer had more. */
  lemma {:induction false} DecEncFields(
    w: Env, r: Env, ws: seq<Field>, rs: seq<Field>, vs: seq<Val>,
    b: seq<byte>, objs: seq<ObjectRef>, pos: nat, end: nat)
    requires Skew(w, r) && FieldsSkew(w, r, ws, rs)
    requires FieldsOk(w, ws, vs) && |EncFields(w, ws, vs)| <= MAX_INT32
    requires pos <= |b| && At(b, pos, EncFields(w, ws, vs)) && end == pos + |EncFields(w, ws, vs)|
    requires Held(objs, RowsFields(w, ws, vs, pos))
    ensures DecFields(r, rs, b, objs, pos, end).Ok? <==> KnowsFields(r, rs, vs)
    ensures KnowsFields(r, rs, vs) ==> DecFields(r, rs, b, objs, pos, end).value == AdaptFields(r, rs, vs)
    decreases vs
  {
    hide At, Held, RowsIn, RowsFields, Skew, Shared, HasType, EncIn, DecIn, DecFields, Adapt, Knows, Inits;
    if rs == [] {
      NoneLeft(r, b, objs, pos, end);
    } else {
      EncFieldsStep(w, ws, vs, pos);
      DecFieldsStep(r, rs, b, objs, pos, end);
      AtSplit(b, pos, EncIn(w, ws[0].typ, vs[0]), EncFields(w, ws[1..], vs[1..]));
      var q := pos + |EncIn(w, ws[0].typ, vs[0])|;
      HeldSplit(objs, RowsIn(w, ws[0].typ, vs[0], pos), RowsFields(w, ws[1..], vs[1..], q));
      DecEncIn(w, r, ws[0].typ, vs[0], b, objs, pos);
      if q < end {
        assert vs[1..] != [];
        DecEncFields(w, r, ws[1..], rs[1..], vs[1..], b, objs, q, end);
      } else {
        assert vs[1..] == [];
      }
    }
  }

  // ----- the rows of a value are sorted, disjoint and inside its encoding -----

  lemma {:induction false} RowsOfWithin(env: Env, t: Type, v: Val, pos: nat)
    requires HasType(env, t, v)
    ensures TableWithin(RowsOf(env, t, v, pos), pos, pos + |Enc(env, t, v)|)
    decreases v, 1
  {
    hide TableWithin, EncI32, EncCount, AllOk, EncAll, RowsAll, KeysOk, EncDict, RowsDict;
    hide D.EncEntries, D.RowsOfEntries, D.EntriesSized, D.EntriesWalk;
    hide BodyOk, EncBody, RowsBody, ChoiceOk, EncChoice, RowsChoice, EncPrim, EncText, InPrim, TextFits, EncBinder;
    var end := pos + |Enc(env, t, v)|;
    NoneWithin(pos, end);
    match t
    case Parcelable(n, nullable) =>
      if !v.Nil? {
        var at := if nullable then pos + 4 else pos;
        RowsBodyWithin(env, n, v, at);
        D.Widen(RowsBody(env, n, v, at), at, pos, end);
      }
    case Union(n, nullable) =>
      if !v.Nil? {
        var at := if nullable then pos + 4 else pos;
        RowsChoiceWithin(env, n, v, at);
        D.Widen(RowsChoice(env, n, v, at), at, pos, end);
      }
    case Slice(e) =>
      if !v.Nil? {
        RowsAllWithin(env, e, v.items, pos + 4);
        D.Widen(RowsAll(env, e, v.items, pos + 4), pos + 4, pos, end);
      }
    case Array(_, e) =>
      RowsAllWithin(env, e, v.items, pos + 4);
      D.Widen(RowsAll(env, e, v.items, pos + 4), pos + 4, pos, end);
    case Map(k, e) =>
      if !v.Nil? {
        RowsDictWithin(env, k, e, v.keys, v.vals, pos + 4);
        D.Widen(RowsDict(env, k, e, v.keys, v.vals, pos + 4), pos + 4, pos, end);
      }
    case Raw =>
      if !v.Nil? {
        D.RowsOfEntriesWithin(v.entries, pos + 4);
        D.Widen(D.RowsOfEntries(v.entries, pos + 4), pos + 4, pos, end);
      }
    case Strong => if !v.Nil? { BinderWithin(v.ref, pos); }
    case _ =>
  }

  lemma NoneWithin(lo: nat, hi: nat)
    ensures TableWithin([], lo, hi)
  {
  }

  lemma BinderWithin(r: BinderRef, pos: nat)
    ensures TableWithin(BinderRows(r, pos), pos, pos + |EncBinder(r)|)
  {
  }

  lemma {:induction false} RowsInWithin(env: Env, t: Type, v: Val, pos: nat)
    requires HasType(env, t, v)
    ensures TableWithin(RowsIn(env, t, v, pos), pos, pos + |EncIn(env, t, v)|)
    decreases v, 2
  {
    hide TableWithin, HasType, Enc, RowsOf, EncI32;
    var at := if TypedObject(t) && !t.nullable then pos + 4 else pos;
    RowsOfWithin(env, t, v, at);
    D.Widen(RowsOf(env, t, v, at), at, pos, pos + |EncIn(env, t, v)|);
  }

  lemma {:induction false} RowsBodyWithin(env: Env, n: string, v: Val, pos: nat)
    requires BodyOk(env, n, v)
    ensures TableWithin(RowsBody(env, n, v, pos), pos, pos + |EncBody(env, n, v)|)
    decreases v, 0
  {
    hide TableWithin, FieldsOk, EncFields, RowsFields, EncCount, EncRaw;
    match env[n]
    case Struct(fs, _) =>
      RowsFieldsWithin(env, fs, v.fields, pos + 4);
      D.Widen(RowsFields(env, fs, v.fields, pos + 4), pos + 4, pos, pos + |EncBody(env, n, v)|);
    case Opaque => NoneWithin(pos, pos + |EncBody(env, n, v)|);
  }

  lemma {:induction false} RowsChoiceWithin(env: Env, n: string, v: Val, pos: nat)
    requires ChoiceOk(env, n, v)
    ensures TableWithin(RowsChoice(env, n, v, pos), pos, pos + |EncChoice(env, n, v)|)
    decreases v, 0
  {
    hide TableWithin, HasType, EncIn, RowsIn, EncCount;
    var t := env[n].variants[v.tag];
    RowsInWithin(env, t, v.value, pos + 4);
    D.Widen(RowsIn(env, t, v.value, pos + 4), pos + 4, pos, pos + |EncChoice(env, n, v)|);
  }

  lemma {:induction false} RowsAllWithin(env: Env, t: Type, vs: seq<Val>, pos: nat)
    requires AllOk(env, t, vs)
    ensures TableWithin(RowsAll(env, t, vs, pos), pos, pos + |EncAll(env, t, vs)|)
    decreases vs
  {
    hide TableWithin, HasType, EncIn, RowsIn;
    if vs == [] {
      NoneWithin(pos, pos);
    } else {
      var mid := pos + |EncIn(env, t, vs[0])|;
      RowsInWithin(env, t, vs[0], pos);
      RowsAllWithin(env, t, vs[1..], mid);
      TableJoin(RowsIn(env, t, vs[0], pos), RowsAll(env, t, vs[1..], mid), pos, mid, mid + |EncAll(env, t, vs[1..])|);
    }
  }

  lemma {:induction false} RowsFieldsWithin(env: Env, fs: seq<Field>, vs: seq<Val>, pos: nat)
    requires FieldsOk(env, fs, vs)
    ensures TableWithin(RowsFields(env, fs, vs, pos), pos, pos + |EncFields(env, fs, vs)|)
    decreases vs
  {
    hide TableWithin, HasType, EncIn, RowsIn;
    if vs == [] {
      NoneWithin(pos, pos);
    } else {
      var t := fs[0].typ;
      var mid := pos + |EncIn(env, t, vs[0])|;
      RowsInWithin(env, t, vs[0], pos);
      RowsFieldsWithin(env, fs[1..], vs[1..], mid);
      TableJoin(RowsIn(env, t, vs[0], pos), RowsFields(env, fs[1..], vs[1..], mid),
                pos, mid, mid + |EncFields(env, fs[1..], vs[1..])|);
    }
  }

  lemma {:induction false} RowsDictWithin(env: Env, k: Type, t: Type, ks: seq<Key>, vs: seq<Val>, pos: nat)
    requires |ks| == |vs| && KeysOk(env, k, ks) && AllOk(env, t, vs)
    ensures TableWithin(RowsDict(env, k, t, ks, vs, pos), pos, pos + |EncDict(env, k, t, ks, vs)|)
    decreases vs
  {
    hide TableWithin, HasType, EncIn, RowsIn, EncKey, KeyOk;
    if vs == [] {
      NoneWithin(pos, pos);
    } else {
      var mid := pos + |EncKey(env, k, ks[0])|;
      var end := mid + |EncIn(env, t, vs[0])|;
      RowsInWithin(env, t, vs[0], mid);
      D.Widen(RowsIn(env, t, vs[0], mid), mid, pos, end);
      RowsDictWithin(env, k, t, ks[1..], vs[1..], end);
      TableJoin(RowsIn(env, t, vs[0], mid), RowsDict(env, k, t, ks[1..], vs[1..], end),
                pos, end, end + |EncDict(env, k, t, ks[1..], vs[1..])|);
    }
  }

  // ----- and come back from the driver -----

  lemma {:induction false} RowsImport(env: Env, t: Type, v: Val, b: seq<byte>, pos: nat)
    requires HasType(env, t, v) && |b| < 0x1_0000_0000_0000_0000 && At(b, pos, Enc(env, t, v))
    ensures D.AllImport(b, RowsOf(env, t, v, pos))
    decreases v, 1
  {
    hide At, Imports, EncI32, EncCount, AllOk, EncAll, RowsAll, KeysOk, EncDict, RowsDict;
    hide D.EncEntries, D.RowsOfEntries, D.EntriesSized, D.EntriesWalk, D.EntryWritable;
    hide BodyOk, EncBody, RowsBody, ChoiceOk, EncChoice, RowsChoice, EncPrim, EncText, InPrim, TextFits, EncBinder;
    match t
    case Parcelable(n, nullable) =>
      if !v.Nil? {
        AtSplit(b, pos, if nullable then EncI32(1) else [], EncBody(env, n, v));
        BodyRowsImport(env, n, v, b, if nullable then pos + 4 else pos);
      }
    case Union(n, nullable) =>
      if !v.Nil? {
        AtSplit(b, pos, if nullable then EncI32(1) else [], EncChoice(env, n, v));
        ChoiceRowsImport(env, n, v, b, if nullable then pos + 4 else pos);
      }
    case Slice(e) =>
      if !v.Nil? {
        AtSplit(b, pos, EncCount(|v.items|), EncAll(env, e, v.items));
        AllRowsImport(env, e, v.items, b, pos + 4);
      }
    case Array(_, e) =>
      AtSplit(b, pos, EncCount(|v.items|), EncAll(env, e, v.items));
      AllRowsImport(env, e, v.items, b, pos + 4);
    case Map(k, e) =>
      if !v.Nil? {
        AtSplit(b, pos, EncCount(|v.keys|), EncDict(env, k, e, v.keys, v.vals));
        DictRowsImport(env, k, e, v.keys, v.vals, b, pos + 4);
      }
    case Raw =>
      if !v.Nil? {
        AtSplit(b, pos, EncCount(|v.entries|), D.EncEntries(v.entries));
        D.EntriesRowsImport(v.entries, b, pos + 4);
      }
    case Strong => if !v.Nil? { ParseBinderAt(b, pos, v.ref); }
    case _ =>
  }

  lemma {:induction false} InRowsImport(env: Env, t: Type, v: Val, b: seq<byte>, pos: nat)
    requires HasType(env, t, v) && |b| < 0x1_0000_0000_0000_0000 && At(b, pos, EncIn(env, t, v))
    ensures D.AllImport(b, RowsIn(env, t, v, pos))
    decreases v, 2
  {
    hide At, D.AllImport, HasType, Enc, RowsOf, EncI32;
    if TypedObject(t) && !t.nullable {
      AtSplit(b, pos, EncI32(1), Enc(env, t, v));
    }
    RowsImport(env, t, v, b, if TypedObject(t) && !t.nullable then pos + 4 else pos);
  }

  lemma {:induction false} BodyRowsImport(env: Env, n: string, v: Val, b: seq<byte>, pos: nat)
    requires BodyOk(env, n, v) && |b| < 0x1_0000_0000_0000_0000 && At(b, pos, EncBody(env, n, v))
    ensures D.AllImport(b, RowsBody(env, n, v, pos))
    decreases v, 0
  {
    hide At, Imports, FieldsOk, EncFields, RowsFields, EncCount, EncRaw;
    if env[n].Struct? {
      var body := EncFields(env, env[n].fields, v.fields);
      AtSplit(b, pos, EncCount(4 + |body|), body);
      FieldsRowsImport(env, env[n].fields, v.fields, b, pos + 4);
    }
  }

  lemma {:induction false} ChoiceRowsImport(env: Env, n: string, v: Val, b: seq<byte>, pos: nat)
    requires ChoiceOk(env, n, v) && |b| < 0x1_0000_0000_0000_0000 && At(b, pos, EncChoice(env, n, v))
    ensures D.AllImport(b, RowsChoice(env, n, v, pos))
    decreases v, 0
  {
    hide At, D.AllImport, HasType, EncIn, RowsIn, EncCount;
    var t := env[n].variants[v.tag];
    AtSplit(b, pos, EncCount(v.tag), EncIn(env, t, v.value));
    InRowsImport(env, t, v.value, b, pos + 4);
  }

  lemma {:induction false} AllRowsImport(env: Env, t: Type, vs: seq<Val>, b: seq<byte>, pos: nat)
    requires AllOk(env, t, vs) && |b| < 0x1_0000_0000_0000_0000 && At(b, pos, EncAll(env, t, vs))
    ensures D.AllImport(b, RowsAll(env, t, vs, pos))
    decreases vs
  {
    hide At, Imports, HasType, EncIn, RowsIn;
    if vs != [] {
      AtSplit(b, pos, EncIn(env, t, vs[0]), EncAll(env, t, vs[1..]));
      InRowsImport(env, t, vs[0], b, pos);
      AllRowsImport(env, t, vs[1..], b, pos + |EncIn(env, t, vs[0])|);
    }
  }

  lemma {:induction false} FieldsRowsImport(env: Env, fs: seq<Field>, vs: seq<Val>, b: seq<byte>, pos: nat)
    requires FieldsOk(env, fs, vs) && |b| < 0x1_0000_0000_0000_0000 && At(b, pos, EncFields(env, fs, vs))
    ensures D.AllImport(b, RowsFields(env, fs, vs, pos))
    decreases vs
  {
    hide At, Imports, HasType, EncIn, RowsIn;
    if vs != [] {
      AtSplit(b, pos, EncIn(env, fs[0].typ, vs[0]), EncFields(env, fs[1..], vs[1..]));
      InRowsImport(env, fs[0].typ, vs[0], b, pos);
      FieldsRowsImport(env, fs[1..], vs[1..], b, pos + |EncIn(env, fs[0].typ, vs[0])|);
    }
  }

  lemma {:induction false} DictRowsImport(
    env: Env, k: Type, t: Type, ks: seq<Key>, vs: seq<Val>, b: seq<byte>, pos: nat)
    requires |ks| == |vs| && KeysOk(env, k, ks) && AllOk(env, t, vs)
    requires |b| < 0x1_0000_0000_0000_0000 && At(b, pos, EncDict(env, k, t, ks, vs))
    ensures D.AllImport(b, RowsDict(env, k, t, ks, vs, pos))
    decreases vs
  {
    hide At, Imports, HasType, EncIn, RowsIn, EncKey, KeyOk;
    if vs != [] {
      var mid := pos + |EncKey(env, k, ks[0])|;
      var value, rest := EncIn(env, t, vs[0]), EncDict(env, k, t, ks[1..], vs[1..]);
      AtSplit(b, pos, EncKey(env, k, ks[0]), value + rest);
      AtSplit(b, mid, value, rest);
      InRowsImport(env, t, vs[0], b, mid);
      DictRowsImport(env, k, t, ks[1..], vs[1..], b, mid + |value|);
    }
  }

  // ----- the same version on both sides -----

  /** No raw map inside. */
  predicate Settled(v: Val)
    decreases v
  {
    match v
    case Record(fs) => AllSettled(fs)
    case Variant(_, x) => Settled(x)
    case Items(xs) => AllSettled(xs)
    case Dict(_, xs) => AllSettled(xs)
    case Tree(_) => false
    case _ => true
  }

  predicate AllSettled(vs: seq<Val>)
    decreases vs
  {
    vs == [] || (Settled(vs[0]) && AllSettled(vs[1..]))
  }

  /** No raw map inside has an `int` key beside the key that it comes back as. */
  predicate ApartIn(v: Val)
    decreases v
  {
    match v
    case Record(fs) => AllApart(fs)
    case Variant(_, x) => ApartIn(x)
    case Items(xs) => AllApart(xs)
    case Dict(_, xs) => AllApart(xs)
    case Tree(es) => D.KeysApart(D.Forget(D.TMap(es)))
    case _ => true
  }

  predicate AllApart(vs: seq<Val>)
    decreases vs
  {
    vs == [] || (ApartIn(vs[0]) && AllApart(vs[1..]))
  }

  /** The same value after the trip: equal, but for raw maps, which come back as dynamic
      values with as many entries, each under the form its key has now. */
  predicate Alike(v: Val, r: Val)
    decreases v
  {
    match v
    case Record(fs) => r.Record? && AllAlike(fs, r.fields)
    case Variant(tag, x) => r.Variant? && r.tag == tag && Alike(x, r.value)
    case Items(xs) => r.Items? && AllAlike(xs, r.items)
    case Dict(ks, xs) => r.Dict? && r.keys == ks && AllAlike(xs, r.vals)
    case Tree(es) => r.Dyn? && D.Same(D.Forget(D.TMap(es)), D.Map(r.m))
    case _ => r == v
  }

  predicate AllAlike(vs: seq<Val>, rs: seq<Val>)
    decreases vs
  {
    if vs == [] then rs == [] else rs != [] && Alike(vs[0], rs[0]) && AllAlike(vs[1..], rs[1..])
  }

  /** Without raw maps, alike is equal. */
  lemma {:induction false} AlikeIsEqual(v: Val, r: Val)
    requires Settled(v)
    ensures ApartIn(v) && (Alike(v, r) <==> r == v)
    decreases v
  {
    match v
    case Record(fs) => AllAlikeIsEqual(fs, if r.Record? then r.fields else []);
    case Variant(_, x) => AlikeIsEqual(x, if r.Variant? then r.value else Nil);
    case Items(xs) => AllAlikeIsEqual(xs, if r.Items? then r.items else []);
    case Dict(_, xs) => AllAlikeIsEqual(xs, if r.Dict? then r.vals else []);
    case _ =>
  }

  lemma {:induction false} AllAlikeIsEqual(vs: seq<Val>, rs: seq<Val>)
    requires AllSettled(vs)
    ensures AllApart(vs) && (AllAlike(vs, rs) <==> rs == vs)
    decreases vs
  {
    hide Settled, ApartIn, Alike;
    if vs != [] {
      AlikeIsEqual(vs[0], if rs != [] then rs[0] else Nil);
      AllAlikeIsEqual(vs[1..], if rs != [] then rs[1..] else []);
      if rs != [] {
        assert rs == [rs[0]] + rs[1..] && vs == [vs[0]] + vs[1..];
      }
    }
  }

  lemma {:induction false} SharedSame(env: Env, t: Type)
    ensures Shared(env, env, t)
  {
    match t
    case Slice(e) => SharedSame(env, e);
    case Array(_, e) => SharedSame(env, e);
    case Map(k, e) => SharedSame(env, k); SharedSame(env, e);
    case _ =>
  }

  lemma SkewRefl(env: Env)
    ensures Skew(env, env)
  {
    hide Shared;
    forall t: Type ensures Shared(env, env, t) {
      SharedSame(env, t);
    }
  }

  /** A reader knows every variant of its own version. */
  lemma {:induction false} KnowsOwn(env: Env, t: Type, v: Val)
    requires HasType(env, t, v)
    ensures Knows(env, t, v)
    decreases v, 0
  {
    hide InPrim, TextFits, KeysOk, RawOk;
    match t
    case Parcelable(n, _) => if v.Record? { KnowsOwnFields(env, env[n].fields, v.fields); }
    case Union(n, _) => if v.Variant? { KnowsOwn(env, env[n].variants[v.tag], v.value); }
    case Slice(e) => if v.Items? { KnowsOwnAll(env, e, v.items); }
    case Array(_, e) => KnowsOwnAll(env, e, v.items);
    case Map(_, e) => if v.Dict? { KnowsOwnAll(env, e, v.vals); }
    case _ =>
  }

  lemma {:induction false} KnowsOwnAll(env: Env, t: Type, vs: seq<Val>)
    requires AllOk(env, t, vs)
    ensures KnowsAll(env, t, vs)
    decreases vs
  {
    hide HasType, Knows;
    if vs != [] {
      KnowsOwn(env, t, vs[0]);
      KnowsOwnAll(env, t, vs[1..]);
    }
  }

  lemma {:induction false} KnowsOwnFields(env: Env, fs: seq<Field>, vs: seq<Val>)
    requires FieldsOk(env, fs, vs)
    ensures KnowsFields(env, fs, vs)
    decreases vs
  {
    hide HasType, Knows;
    if vs != [] {
      KnowsOwn(env, fs[0].typ, vs[0]);
      KnowsOwnFields(env, fs[1..], vs[1..]);
    }
  }

  /** Between equal versions a value comes back alike if and only if none of its raw maps
      loses a key; everything outside its raw maps comes back as it was. */
  lemma {:induction false} AdaptAlike(env: Env, t: Type, v: Val)
    requires HasType(env, t, v)
    ensures Alike(v, Adapt(env, t, v)) <==> ApartIn(v)
    decreases v, 0
  {
    hide InPrim, TextFits, KeysOk, D.EntriesWritable, D.EntriesSized;
    hide D.EntriesWalk, D.Forget, D.Returned, D.Same, D.KeysApart;
    hide D.ReturnedEntries;
    match t
    case Parcelable(n, _) => if v.Record? { AdaptAlikeFields(env, env[n].fields, v.fields); }
    case Union(n, _) => if v.Variant? { AdaptAlike(env, env[n].variants[v.tag], v.value); }
    case Slice(e) => if v.Items? { AdaptAlikeAll(env, e, v.items); }
    case Array(_, e) => AdaptAlikeAll(env, e, v.items);
    case Map(_, e) => if v.Dict? { AdaptAlikeAll(env, e, v.vals); }
    case Raw => if v.Tree? { RawKeptIff(v.entries); }
    case _ =>
  }

  lemma RawKeptIff(es: seq<D.Entry>)
    requires D.EntriesWalk(es)
    ensures D.Same(D.Forget(D.TMap(es)), D.Map(D.ReturnedEntries(es))) <==> D.KeysApart(D.Forget(D.TMap(es)))
  {
    hide D.Same, D.KeysApart;
    D.KeptIff(D.TMap(es));
  }

  lemma {:induction false} AdaptAlikeAll(env: Env, t: Type, vs: seq<Val>)
    requires AllOk(env, t, vs)
    ensures AllAlike(vs, AdaptAll(env, t, vs)) <==> AllApart(vs)
    decreases vs
  {
    hide HasType, Adapt, Alike, ApartIn;
    if vs != [] {
      AdaptAlike(env, t, vs[0]);
      AdaptAlikeAll(env, t, vs[1..]);
    }
  }

  lemma {:induction false} AdaptAlikeFields(env: Env, fs: seq<Field>, vs: seq<Val>)
    requires FieldsOk(env, fs, vs)
    ensures AllAlike(vs, AdaptFields(env, fs, vs)) <==> AllApart(vs)
    decreases vs
  {
    hide HasType, Adapt, Alike, ApartIn;
    if vs != [] {
      AdaptAlike(env, fs[0].typ, vs[0]);
      AdaptAlikeFields(env, fs[1..], vs[1..]);
    }
  }

  /** Reader and writer generated from the same definitions: every value is read to its end,
      what follows it reads correctly, and it is the value that was written if and only if
      none of its raw maps has two keys that come back as one; without raw maps it is equal. */
  lemma RoundTrip(env: Env, t: Type, v: Val, b: seq<byte>, objs: seq<ObjectRef>, pos: nat)
    requires HasType(env, t, v) && |EncIn(env, t, v)| <= MAX_INT32
    requires pos <= |b| && At(b, pos, EncIn(env, t, v)) && Held(objs, RowsIn(env, t, v, pos))
    ensures var r := DecIn(env, t, b, objs, pos);
            r.Ok? && r.pos == pos + |EncIn(env, t, v)|
            && (Alike(v, r.value) <==> ApartIn(v)) && (Settled(v) ==> r.value == v)
  {
    hide At, Held, RowsIn, HasType, Settled, EncIn, DecIn, Adapt, Knows, Skew, Shared, Alike, ApartIn;
    SkewRefl(env);
    SharedSame(env, t);
    KnowsOwn(env, t, v);
    DecEncIn(env, env, t, v, b, objs, pos);
    AdaptAlike(env, t, v);
    if Settled(v) {
      AlikeIsEqual(v, Adapt(env, t, v));
    }
  }

  // ----- what the skew condition shuts out -----

  lemma NothingAtEnd(env: Env, t: Type, b: seq<byte>, objs: seq<ObjectRef>)
    ensures DecIn(env, t, b, objs, |b|).Fail?
  {
    hide ReadNullableText, DecBody, DecChoice, DecAll, DecDict;
  }

  /** A writer that knows no field and a reader that knows one do not fit, since the reader
      reads its first field whatever the size says: it takes whatever follows the body for
      that field, and leaves it to be read again. */
  lemma EmptyWriterMisread(w: Env, r: Env, n: string, b: seq<byte>, objs: seq<ObjectRef>, pos: nat)
    requires n in w && w[n].Struct? && w[n].fields == []
    requires n in r && r[n].Struct? && r[n].fields != []
    requires BodyOk(w, n, Record([])) && pos <= |b| && At(b, pos, EncBody(w, n, Record([])))
    ensures pos + 4 <= |b|
    ensures var fs := r[n].fields;
            var first := DecIn(r, fs[0].typ, b, objs, pos + 4);
            DecBody(r, n, b, objs, pos)
            == if first.Fail? then Fail else Ok(Record([first.value] + Inits(fs[1..])), pos + 4)
  {
    hide At, DecIn, EncCount, ReadI32;
    CountAt(4, [], b, pos);
  }

  /** At the end of a parcel nothing follows, and the reader fails. With DecEnc this makes the
      last clause of FieldsSkew exact. */
  lemma EmptyWriterUnreadable(w: Env, r: Env, n: string, b: seq<byte>, objs: seq<ObjectRef>, pos: nat)
    requires n in w && w[n].Struct? && w[n].fields == []
    requires n in r && r[n].Struct? && r[n].fields != []
    requires BodyOk(w, n, Record([])) && pos <= |b| && At(b, pos, EncBody(w, n, Record([])))
    requires |b| == pos + |EncBody(w, n, Record([]))|
    ensures DecBody(r, n, b, objs, pos).Fail?
  {
    hide At, DecIn, DecBody;
    EmptyWriterMisread(w, r, n, b, objs, pos);
    NothingAtEnd(r, r[n].fields[0].typ, b, objs);
  }

  /** A concrete case: an empty structure in front of the number 7. The reader's version has
      one number in it, reads 7 there, and reads 7 again behind it. */
  lemma EmptyWriterExample(zero: Val, init: Val)
    ensures var w := map["S" := Struct([], zero)];
            var r := map["S" := Struct([Field(Basic(Int32), init)], zero)];
            var b := Sized([]) + EncI32(7);
            DecBody(r, "S", b, [], 0) == Ok(Record([Num(7)]), 4) && Dec(r, Basic(Int32), b, [], 4) == Ok(Num(7), 8)
  {
    hide EncI32, EncCount, ReadI32, DecBody;
    var w := map["S" := Struct([], zero)];
    var r := map["S" := Struct([Field(Basic(Int32), init)], zero)];
    var b := Sized([]) + EncI32(7);
    assert At(b, 0, Sized([])) && At(b, 4, EncI32(7));
    assert FieldsOk(w, [], []);
    EmptyWriterMisread(w, r, "S", b, [], 0);
    ReadI32At(b, 4, 7);
    assert r["S"].fields == [Field(Basic(Int32), init)] && r["S"].fields[1..] == [];
    assert DecPrim(Int32, b, 4) == Ok(7, 8);
    assert DecIn(r, Basic(Int32), b, [], 4) == Ok(Num(7), 8);
    assert [Num(7)] + Inits([]) == [Num(7)];
  }
}
