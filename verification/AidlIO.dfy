/** The generated writers as they run: on a parcel, element by element, going back to patch
    the size of every structured parcelable. */
module AidlIO {
  import opened Bytes
  import opened Objects
  import opened Wire
  import opened Parcels
  import opened AidlTypes
  import opened AidlCodec
  import opened AidlCall
  import D = DynamicValues
  import DynamicIO
  import Utf16

  // ----- encodings, one element later -----

  lemma {:induction false} AllSnoc(env: Env, t: Type, vs: seq<Val>, v: Val)
    ensures AllOk(env, t, vs + [v]) <==> AllOk(env, t, vs) && HasType(env, t, v)
    ensures AllOk(env, t, vs + [v]) ==> EncAll(env, t, vs + [v]) == EncAll(env, t, vs) + EncIn(env, t, v)
    decreases vs
  {
    hide HasType, EncIn;
    var all := vs + [v];
    if vs == [] {
      assert all == [v] && all[1..] == [];
    } else {
      assert all[0] == vs[0] && all[1..] == vs[1..] + [v];
      AllSnoc(env, t, vs[1..], v);
    }
  }

  lemma {:induction false} AllRowsSnoc(env: Env, t: Type, vs: seq<Val>, v: Val, pos: nat)
    requires AllOk(env, t, vs) && HasType(env, t, v) && AllOk(env, t, vs + [v])
    ensures RowsAll(env, t, vs + [v], pos) == RowsAll(env, t, vs, pos) + RowsIn(env, t, v, pos + |EncAll(env, t, vs)|)
    decreases vs
  {
    hide HasType, EncIn, RowsIn, AllOk, EncAll, RowsAll;
    var all := vs + [v];
    EncAllStep(env, t, all, pos);
    if vs == [] {
      assert all == [v] && all[1..] == [];
      NoItems(env, t, pos);
      NoItems(env, t, pos + |EncIn(env, t, v)|);
    } else {
      EncAllStep(env, t, vs, pos);
      assert all[0] == vs[0] && all[1..] == vs[1..] + [v];
      AllRowsSnoc(env, t, vs[1..], v, pos + |EncIn(env, t, vs[0])|);
    }
  }

  lemma {:induction false} FieldsRowsSnoc(env: Env, fs: seq<Field>, f: Field, vs: seq<Val>, v: Val, pos: nat)
    requires |fs| == |vs| && FieldsOk(env, fs, vs) && HasType(env, f.typ, v) && FieldsOk(env, fs + [f], vs + [v])
    ensures RowsFields(env, fs + [f], vs + [v], pos)
         == RowsFields(env, fs, vs, pos) + RowsIn(env, f.typ, v, pos + |EncFields(env, fs, vs)|)
    decreases vs
  {
    hide HasType, EncIn, RowsIn, FieldsOk, EncFields, RowsFields;
    EncFieldsStep(env, fs + [f], vs + [v], pos);
    if vs == [] {
      NoFields(env, pos);
      NoFields(env, pos + |EncIn(env, f.typ, v)|);
      assert fs + [f] == [f] && vs + [v] == [v] && [v][1..] == [] && [f][1..] == [];
    } else {
      assert (vs + [v])[0] == vs[0] && (vs + [v])[1..] == vs[1..] + [v];
      assert (fs + [f])[0] == fs[0] && (fs + [f])[1..] == fs[1..] + [f];
      EncFieldsStep(env, fs, vs, pos);
      FieldsRowsSnoc(env, fs[1..], f, vs[1..], v, pos + |EncIn(env, fs[0].typ, vs[0])|);
    }
  }

  lemma {:induction false} FieldsSnoc(env: Env, fs: seq<Field>, f: Field, vs: seq<Val>, v: Val)
    requires |fs| == |vs|
    ensures FieldsOk(env, fs + [f], vs + [v]) <==> FieldsOk(env, fs, vs) && HasType(env, f.typ, v)
    ensures FieldsOk(env, fs + [f], vs + [v]) ==>
      EncFields(env, fs + [f], vs + [v]) == EncFields(env, fs, vs) + EncIn(env, f.typ, v)
    decreases vs
  {
    hide HasType, EncIn;
    if vs == [] {
      assert fs + [f] == [f] && vs + [v] == [v] && [v][1..] == [] && [f][1..] == [];
    } else {
      assert (vs + [v])[0] == vs[0] && (vs + [v])[1..] == vs[1..] + [v];
      assert (fs + [f])[0] == fs[0] && (fs + [f])[1..] == fs[1..] + [f];
      FieldsSnoc(env, fs[1..], f, vs[1..], v);
    }
  }

  lemma AllGrows(env: Env, t: Type, vs: seq<Val>, i: nat, pos: nat)
    requires i < |vs| && AllOk(env, t, vs[..i]) && HasType(env, t, vs[i])
    ensures AllOk(env, t, vs[..i + 1])
    ensures EncAll(env, t, vs[..i + 1]) == EncAll(env, t, vs[..i]) + EncIn(env, t, vs[i])
    ensures RowsAll(env, t, vs[..i + 1], pos)
         == RowsAll(env, t, vs[..i], pos) + RowsIn(env, t, vs[i], pos + |EncAll(env, t, vs[..i])|)
  {
    hide HasType, EncIn, RowsIn, AllOk, EncAll, RowsAll;
    AllSnoc(env, t, vs[..i], vs[i]);
    AllRowsSnoc(env, t, vs[..i], vs[i], pos);
    assert vs[..i + 1] == vs[..i] + [vs[i]];
  }

  lemma NoItems(env: Env, t: Type, pos: nat)
    ensures AllOk(env, t, []) && EncAll(env, t, []) == [] && RowsAll(env, t, [], pos) == []
  {
  }

  lemma FieldsGrows(env: Env, fs: seq<Field>, vs: seq<Val>, i: nat, pos: nat)
    requires |fs| == |vs| && i < |vs| && FieldsOk(env, fs[..i], vs[..i]) && HasType(env, fs[i].typ, vs[i])
    ensures FieldsOk(env, fs[..i + 1], vs[..i + 1])
    ensures EncFields(env, fs[..i + 1], vs[..i + 1]) == EncFields(env, fs[..i], vs[..i]) + EncIn(env, fs[i].typ, vs[i])
    ensures RowsFields(env, fs[..i + 1], vs[..i + 1], pos)
         == RowsFields(env, fs[..i], vs[..i], pos)
           + RowsIn(env, fs[i].typ, vs[i], pos + |EncFields(env, fs[..i], vs[..i])|)
  {
    hide HasType, EncIn, RowsIn, FieldsOk, EncFields, RowsFields;
    FieldsSnoc(env, fs[..i], fs[i], vs[..i], vs[i]);
    FieldsRowsSnoc(env, fs[..i], fs[i], vs[..i], vs[i], pos);
    assert fs[..i + 1] == fs[..i] + [fs[i]] && vs[..i + 1] == vs[..i] + [vs[i]];
  }

  lemma NoFields(env: Env, pos: nat)
    ensures FieldsOk(env, [], []) && EncFields(env, [], []) == [] && RowsFields(env, [], [], pos) == []
  {
  }

  lemma {:induction false} KeysSnoc(env: Env, t: Type, ks: seq<Key>, k: Key)
    ensures KeysOk(env, t, ks + [k]) <==> KeysOk(env, t, ks) && KeyOk(env, t, k)
  {
    hide KeyOk;
    if ks == [] {
      assert ks + [k] == [k] && [k][1..] == [];
    } else {
      assert (ks + [k])[0] == ks[0] && (ks + [k])[1..] == ks[1..] + [k];
      KeysSnoc(env, t, ks[1..], k);
    }
  }

  lemma {:induction false} DictSnoc(env: Env, k: Type, t: Type, ks: seq<Key>, key: Key, vs: seq<Val>, v: Val)
    requires |ks| == |vs| && KeysOk(env, k, ks) && AllOk(env, t, vs) && KeyOk(env, k, key) && HasType(env, t, v)
    requires KeysOk(env, k, ks + [key]) && AllOk(env, t, vs + [v])
    ensures EncDict(env, k, t, ks + [key], vs + [v])
      == EncDict(env, k, t, ks, vs) + (EncKey(env, k, key) + EncIn(env, t, v))
    decreases vs
  {
    hide HasType, EncIn, KeyOk, EncKey, EncDict, AllOk, KeysOk, RowsDict;
    EncDictStep(env, k, t, ks + [key], vs + [v], 0);
    if vs == [] {
      assert ks + [key] == [key] && vs + [v] == [v] && [v][1..] == [] && [key][1..] == [];
      EmptyDict(env, k, t, 0);
    } else {
      EncDictStep(env, k, t, ks, vs, 0);
      assert (ks + [key])[0] == ks[0] && (ks + [key])[1..] == ks[1..] + [key];
      assert (vs + [v])[0] == vs[0] && (vs + [v])[1..] == vs[1..] + [v];
      DictSnoc(env, k, t, ks[1..], key, vs[1..], v);
    }
  }

  lemma {:induction false} DictRowsSnoc(
    env: Env, k: Type, t: Type, ks: seq<Key>, key: Key, vs: seq<Val>, v: Val, pos: nat)
    requires |ks| == |vs| && KeysOk(env, k, ks) && AllOk(env, t, vs) && KeyOk(env, k, key) && HasType(env, t, v)
    requires KeysOk(env, k, ks + [key]) && AllOk(env, t, vs + [v])
    ensures RowsDict(env, k, t, ks + [key], vs + [v], pos)
         == RowsDict(env, k, t, ks, vs, pos)
           + RowsIn(env, t, v, pos + |EncDict(env, k, t, ks, vs)| + |EncKey(env, k, key)|)
    decreases vs
  {
    hide HasType, EncIn, KeyOk, EncKey, EncDict, AllOk, KeysOk, RowsIn, RowsDict;
    EncDictStep(env, k, t, ks + [key], vs + [v], pos);
    if vs == [] {
      assert ks + [key] == [key] && vs + [v] == [v] && [v][1..] == [] && [key][1..] == [];
      EmptyDict(env, k, t, pos);
      EmptyDict(env, k, t, pos + |EncKey(env, k, key)| + |EncIn(env, t, v)|);
    } else {
      EncDictStep(env, k, t, ks, vs, pos);
      assert (ks + [key])[0] == ks[0] && (ks + [key])[1..] == ks[1..] + [key];
      assert (vs + [v])[0] == vs[0] && (vs + [v])[1..] == vs[1..] + [v];
      DictRowsSnoc(env, k, t, ks[1..], key, vs[1..], v, pos + |EncKey(env, k, ks[0])| + |EncIn(env, t, vs[0])|);
    }
  }

  lemma EmptyDict(env: Env, k: Type, t: Type, pos: nat)
    ensures KeysOk(env, k, []) && AllOk(env, t, [])
    ensures EncDict(env, k, t, [], []) == [] && RowsDict(env, k, t, [], [], pos) == []
  {
  }

  lemma DictGrows(env: Env, k: Type, t: Type, ks: seq<Key>, vs: seq<Val>, i: nat, pos: nat)
    requires |ks| == |vs| && i < |ks| && KeysOk(env, k, ks[..i]) && AllOk(env, t, vs[..i])
    requires KeyOk(env, k, ks[i]) && HasType(env, t, vs[i])
    ensures KeysOk(env, k, ks[..i + 1]) && AllOk(env, t, vs[..i + 1])
    ensures EncDict(env, k, t, ks[..i + 1], vs[..i + 1])
         == EncDict(env, k, t, ks[..i], vs[..i]) + (EncKey(env, k, ks[i]) + EncIn(env, t, vs[i]))
    ensures RowsDict(env, k, t, ks[..i + 1], vs[..i + 1], pos)
         == RowsDict(env, k, t, ks[..i], vs[..i], pos)
          + RowsIn(env, t, vs[i], pos + |EncDict(env, k, t, ks[..i], vs[..i])| + |EncKey(env, k, ks[i])|)
  {
    hide HasType, EncIn, KeyOk, EncKey, EncDict, AllOk, KeysOk, RowsIn, RowsDict;
    KeysSnoc(env, k, ks[..i], ks[i]);
    AllSnoc(env, t, vs[..i], vs[i]);
    assert ks[..i + 1] == ks[..i] + [ks[i]] && vs[..i + 1] == vs[..i] + [vs[i]];
    DictSnoc(env, k, t, ks[..i], ks[i], vs[..i], vs[i]);
    DictRowsSnoc(env, k, t, ks[..i], ks[i], vs[..i], vs[i], pos);
  }

  lemma {:induction false} FieldsLength(env: Env, fs: seq<Field>, vs: seq<Val>)
    requires FieldsOk(env, fs, vs)
    ensures |fs| == |vs|
    decreases vs
  {
    if vs != [] {
      FieldsLength(env, fs[1..], vs[1..]);
    }
  }

  // ----- prefixes of good lists are good -----

  lemma {:induction false} AllPrefix(env: Env, t: Type, vs: seq<Val>, i: nat)
    requires i < |vs| && AllOk(env, t, vs)
    ensures HasType(env, t, vs[i])
    decreases i
  {
    hide HasType;
    if i > 0 {
      AllPrefix(env, t, vs[1..], i - 1);
    }
  }

  lemma {:induction false} FieldsPrefix(env: Env, fs: seq<Field>, vs: seq<Val>, i: nat)
    requires i < |vs| && |fs| == |vs| && FieldsOk(env, fs, vs)
    ensures HasType(env, fs[i].typ, vs[i])
    decreases i
  {
    hide HasType;
    if i > 0 {
      FieldsPrefix(env, fs[1..], vs[1..], i - 1);
    }
  }

  lemma {:induction false} KeysPrefix(env: Env, t: Type, ks: seq<Key>, i: nat)
    requires i < |ks| && KeysOk(env, t, ks)
    ensures KeyOk(env, t, ks[i])
    decreases i
  {
    hide KeyOk;
    if i > 0 {
      KeysPrefix(env, t, ks[1..], i - 1);
    }
  }

  // ----- raw maps inside -----

  /** What Go's types give: a raw map inside has each key once and the elements of its arrays
      in range, and a binder has a handle or a node. The length prefixes in raw maps fit. */
  predicate Sound(v: Val)
    decreases v
  {
    match v
    case Record(fs) => AllSound(fs)
    case Variant(_, x) => Sound(x)
    case Items(xs) => AllSound(xs)
    case Dict(_, xs) => AllSound(xs)
    case Tree(es) => RawSound(es)
    case Bind(r) => r.Proper()
    case _ => true
  }

  predicate RawSound(es: seq<D.Entry>) {
    D.EntriesWalk(es) && DynamicIO.TreeTyped(D.TMap(es)) && (D.EntriesWritable(es) ==> D.EntriesSized(es))
  }

  predicate AllSound(vs: seq<Val>)
    decreases vs
  {
    vs == [] || (Sound(vs[0]) && AllSound(vs[1..]))
  }

  predicate ArgsSound(vs: seq<Val>) { forall i :: 0 <= i < |vs| ==> Sound(vs[i]) }

  lemma {:induction false} SoundAt(vs: seq<Val>, i: nat)
    requires i < |vs| && AllSound(vs)
    ensures Sound(vs[i])
    decreases i
  {
    hide Sound;
    if i > 0 {
      SoundAt(vs[1..], i - 1);
    }
  }

  // ----- one level of the encoding -----

  lemma ParcelableLevel(env: Env, n: string, nullable: bool, v: Val, pos: nat)
    ensures HasType(env, Parcelable(n, nullable), v) <==> if v.Nil? then nullable else BodyOk(env, n, v)
    ensures HasType(env, Parcelable(n, nullable), v) ==>
      Enc(env, Parcelable(n, nullable), v)
      == if v.Nil? then EncI32(0) else (if nullable then EncI32(1) else []) + EncBody(env, n, v)
    ensures HasType(env, Parcelable(n, nullable), v) ==>
      RowsOf(env, Parcelable(n, nullable), v, pos)
      == if v.Nil? then [] else RowsBody(env, n, v, if nullable then pos + 4 else pos)
  {
    hide BodyOk, EncBody, EncI32, RowsBody;
  }

  lemma UnionLevel(env: Env, n: string, nullable: bool, v: Val, pos: nat)
    ensures HasType(env, Union(n, nullable), v) <==> if v.Nil? then nullable else ChoiceOk(env, n, v)
    ensures HasType(env, Union(n, nullable), v) ==>
      Enc(env, Union(n, nullable), v)
      == if v.Nil? then EncI32(0) else (if nullable then EncI32(1) else []) + EncChoice(env, n, v)
    ensures HasType(env, Union(n, nullable), v) ==>
      RowsOf(env, Union(n, nullable), v, pos)
      == if v.Nil? then [] else RowsChoice(env, n, v, if nullable then pos + 4 else pos)
  {
    hide ChoiceOk, EncChoice, EncI32, RowsChoice;
  }

  lemma SliceLevel(env: Env, t: Type, v: Val, pos: nat)
    ensures HasType(env, Slice(t), v) <==> v.Nil? || (v.Items? && |v.items| <= MAX_INT32 && AllOk(env, t, v.items))
    ensures HasType(env, Slice(t), v) ==>
      Enc(env, Slice(t), v) == if v.Nil? then EncI32(-1) else EncCount(|v.items|) + EncAll(env, t, v.items)
    ensures HasType(env, Slice(t), v) ==>
      RowsOf(env, Slice(t), v, pos) == if v.Nil? then [] else RowsAll(env, t, v.items, pos + 4)
  {
    hide AllOk, EncAll, EncI32, EncCount, RowsAll;
  }

  lemma MapLevel(env: Env, k: Type, t: Type, v: Val, pos: nat)
    ensures HasType(env, Map(k, t), v) <==>
      v.Nil? || (v.Dict? && |v.keys| == |v.vals| <= MAX_INT32 && KeysOk(env, k, v.keys) && AllOk(env, t, v.vals))
    ensures HasType(env, Map(k, t), v) ==>
      Enc(env, Map(k, t), v)
      == if v.Nil? then EncI32(-1) else EncCount(|v.keys|) + EncDict(env, k, t, v.keys, v.vals)
    ensures HasType(env, Map(k, t), v) ==>
      RowsOf(env, Map(k, t), v, pos) == if v.Nil? then [] else RowsDict(env, k, t, v.keys, v.vals, pos + 4)
  {
    hide AllOk, KeysOk, EncDict, EncI32, EncCount, RowsDict;
  }

  lemma PartsSound(v: Val)
    requires Sound(v)
    ensures v.Record? ==> AllSound(v.fields)
    ensures v.Items? ==> AllSound(v.items)
    ensures v.Dict? ==> AllSound(v.vals)
    ensures v.Variant? ==> Sound(v.value)
  {
  }

  // ----- leaves -----

  method WritePrim(p: Parcel, prim: Prim, n: int)
    requires p.Valid() && p.pos == |p.buf| && InPrim(prim, n)
    modifies p
    ensures p.Valid() && p.pos == |p.buf| && p.buf == old(p.buf) + EncPrim(prim, n) && p.objects == old(p.objects)
  {
    hide Overwrite, EncI32, EncI64, EncBool;
    match prim
    case Bool => p.WriteBool(n != 0);
    case Byte => p.WriteBlock([if n < 0 then n + 0x100 else n]);
    case Char => p.WriteBlock(LE16(n));
    case Int32 => p.WriteInt32(n);
    case Int64 => p.WriteInt64(n);
    case Float32 =>
      assert Padded(LE32(n)) == LE32(n);
      p.WriteBlock(LE32(n));
    case Float64 =>
      assert Padded(LE64(n)) == LE64(n);
      p.WriteBlock(LE64(n));
  }

  method WriteKey(p: Parcel, env: Env, t: Type, k: Key) returns (ok: bool)
    requires p.Valid() && p.pos == |p.buf|
    modifies p
    ensures p.Valid() && p.pos == |p.buf|
    ensures ok <==> KeyOk(env, t, k)
    ensures ok ==> p.buf == old(p.buf) + EncKey(env, t, k) && p.objects == old(p.objects)
  {
    hide InPrim, EncPrim, EncText, TextFits, Overwrite;
    if !KeyType(env, t) {
      return false;
    }
    if t.Text? {
      if !k.KText? {
        return false;
      }
      ok := p.WriteString(k.s);
    } else {
      var prim := if t.Basic? then t.prim else env[t.name].prim;
      if !k.KNum? || !InPrim(prim, k.n) {
        return false;
      }
      WritePrim(p, prim, k.n);
      ok := true;
    }
  }

  // ----- sized parcelables -----

  /** Goes back to the size slot, writes the size of everything from the slot on, and
      returns to the end. */
  method EndSized(p: Parcel, start: nat)
    requires p.Valid() && p.pos == |p.buf| && start + 4 <= |p.buf|
    modifies p
    ensures p.Valid() && p.pos == |p.buf| && p.objects == old(p.objects)
    ensures p.buf == old(p.buf)[..start] + Sized(old(p.buf)[start + 4..])
  {
    var end := p.pos;
    var ok := p.SetPosition(start);
    p.WriteCount(end - start);
    ok := p.SetPosition(end);
    ghost var b := old(p.buf);
    assert b == b[..start] + b[start..start + 4] + b[start + 4..];
    OverwriteMiddle(b[..start], b[start..start + 4], b[start + 4..], EncCount(end - start));
  }

  // ----- the writers -----

  /** Appends exactly the encoding of the value, and refuses exactly the values that do not
      belong to the type. */
  method Write(p: Parcel, env: Env, t: Type, v: Val) returns (ok: bool)
    requires p.Valid() && p.pos == |p.buf| && Sound(v)
    modifies p
    ensures p.Valid() && p.pos == |p.buf|
    ensures ok <==> HasType(env, t, v)
    ensures ok ==> p.buf == old(p.buf) + Enc(env, t, v)
    ensures ok ==> p.objects == old(p.objects) + RowsOf(env, t, v, |old(p.buf)|)
    decreases v, 2
  {
    hide InPrim, EncPrim, EncText, TextFits, EncI32, EncCount, AllOk, EncAll;
    hide KeysOk, EncDict, BodyOk, EncBody, ChoiceOk, EncChoice, Overwrite;
    hide RowsAll, RowsDict, RowsBody, RowsChoice, EncBinder, BinderWritten;
    match t
    case Basic(prim) =>
      ok := v.Num? && InPrim(prim, v.n);
      if ok { WritePrim(p, prim, v.n); }
    case Enum(e) =>
      ok := e in env && env[e].Backed? && v.Num? && InPrim(env[e].prim, v.n);
      if ok { WritePrim(p, env[e].prim, v.n); }
    case Text(nullable) =>
      if v.Nil? {
        ok := nullable;
        if ok { p.WriteInt32(-1); }
      } else {
        ok := false;
        if v.Str? { ok := p.WriteString(v.s); }
      }
    case Parcelable(_, _) => ok := WriteParcelable(p, env, t, v);
    case Union(_, _) => ok := WriteUnion(p, env, t, v);
    case Slice(e) => ok := WriteSlice(p, env, e, v);
    case Array(len, e) =>
      ok := v.Items? && |v.items| == len;
      if ok { ok := WriteSlice(p, env, e, v); }
    case Map(k, e) => ok := WriteMap(p, env, k, e, v);
    case Raw => ok := WriteRaw(p, env, v);
    case Strong =>
      ok := v.Nil? || v.Bind?;
      if ok { p.WriteStrongBinder(if v.Nil? then Null else v.ref); }
  }

  method WriteRaw(p: Parcel, env: Env, v: Val) returns (ok: bool)
    requires p.Valid() && p.pos == |p.buf| && Sound(v)
    modifies p
    ensures p.Valid() && p.pos == |p.buf|
    ensures ok <==> HasType(env, Raw, v)
    ensures ok ==> p.buf == old(p.buf) + Enc(env, Raw, v)
    ensures ok ==> p.objects == old(p.objects) + RowsOf(env, Raw, v, |old(p.buf)|)
  {
    hide EncI32, EncCount, Overwrite, D.EncEntries, D.EntriesSized;
    hide D.EntriesWalk, D.EntryWritable, D.RowsOfEntries, DynamicIO.TreeTyped;
    if v.Nil? {
      p.WriteInt32(-1);
      return true;
    }
    if !v.Tree? {
      return false;
    }
    ok := DynamicIO.WriteTreeEntries(p, D.TMap(v.entries));
  }

  method WriteParcelable(p: Parcel, env: Env, t: Type, v: Val) returns (ok: bool)
    requires p.Valid() && p.pos == |p.buf| && Sound(v) && t.Parcelable?
    modifies p
    ensures p.Valid() && p.pos == |p.buf|
    ensures ok <==> HasType(env, t, v)
    ensures ok ==> p.buf == old(p.buf) + Enc(env, t, v)
    ensures ok ==> p.objects == old(p.objects) + RowsOf(env, t, v, |old(p.buf)|)
    decreases v, 1
  {
    hide HasType, Enc, EncI32, BodyOk, EncBody, Overwrite, Sound, RowsOf, RowsBody;
    ParcelableLevel(env, t.name, t.nullable, v, p.pos);
    if v.Nil? {
      ok := t.nullable;
      if ok { p.WriteInt32(0); }
      return;
    }
    if t.nullable {
      p.WriteInt32(1);
    }
    ok := WriteBody(p, env, t.name, v);
  }

  method WriteUnion(p: Parcel, env: Env, t: Type, v: Val) returns (ok: bool)
    requires p.Valid() && p.pos == |p.buf| && Sound(v) && t.Union?
    modifies p
    ensures p.Valid() && p.pos == |p.buf|
    ensures ok <==> HasType(env, t, v)
    ensures ok ==> p.buf == old(p.buf) + Enc(env, t, v)
    ensures ok ==> p.objects == old(p.objects) + RowsOf(env, t, v, |old(p.buf)|)
    decreases v, 1
  {
    hide HasType, Enc, EncI32, ChoiceOk, EncChoice, Overwrite, Sound, RowsOf, RowsChoice;
    UnionLevel(env, t.name, t.nullable, v, p.pos);
    if v.Nil? {
      ok := t.nullable;
      if ok { p.WriteInt32(0); }
      return;
    }
    if t.nullable {
      p.WriteInt32(1);
    }
    ok := WriteChoice(p, env, t.name, v);
  }

  method WriteIn(p: Parcel, env: Env, t: Type, v: Val) returns (ok: bool)
    requires p.Valid() && p.pos == |p.buf| && Sound(v)
    modifies p
    ensures p.Valid() && p.pos == |p.buf|
    ensures ok <==> HasType(env, t, v)
    ensures ok ==> p.buf == old(p.buf) + EncIn(env, t, v)
    ensures ok ==> p.objects == old(p.objects) + RowsIn(env, t, v, |old(p.buf)|)
    decreases v, 3
  {
    hide HasType, Enc, EncI32, Overwrite, RowsOf;
    if TypedObject(t) && !t.nullable {
      p.WriteInt32(1);
    }
    ok := Write(p, env, t, v);
  }

  method WriteBody(p: Parcel, env: Env, n: string, v: Val) returns (ok: bool)
    requires p.Valid() && p.pos == |p.buf| && Sound(v)
    modifies p
    ensures p.Valid() && p.pos == |p.buf|
    ensures ok <==> BodyOk(env, n, v)
    ensures ok ==> p.buf == old(p.buf) + EncBody(env, n, v)
    ensures ok ==> p.objects == old(p.objects) + RowsBody(env, n, v, |old(p.buf)|)
    decreases v, 0
  {
    hide HasType, EncIn, EncI32, EncCount, FieldsOk, EncFields, EncRaw, Overwrite, Sound, RowsFields;
    if n !in env {
      return false;
    }
    match env[n]
    case Struct(fs, _) =>
      if !v.Record? {
        return false;
      }
      var start := p.pos;
      p.WriteInt32(0);
      ok := WriteFields(p, env, fs, v);
      if ok {
        ghost var b := p.buf;
        assert b[..start] == old(p.buf) && b[start + 4..] == EncFields(env, fs, v.fields);
        EndSized(p, start);
      }
    case Opaque =>
      ok := false;
      if v.Bytes? { ok := p.WriteBytes(v.raw); }
    case _ => ok := false;
  }

  method WriteFields(p: Parcel, env: Env, fs: seq<Field>, v: Val) returns (ok: bool)
    requires p.Valid() && p.pos == |p.buf| && v.Record? && Sound(v)
    modifies p
    ensures p.Valid() && p.pos == |p.buf|
    ensures ok <==> FieldsOk(env, fs, v.fields)
    ensures ok ==> p.buf == old(p.buf) + EncFields(env, fs, v.fields)
    ensures ok ==> p.objects == old(p.objects) + RowsFields(env, fs, v.fields, |old(p.buf)|)
    decreases v, 0, 0
  {
    hide HasType, EncIn, Sound, AllSound, RowsIn, FieldsOk, EncFields, RowsFields;
    PartsSound(v);
    NoFields(env, p.pos);
    if |fs| != |v.fields| {
      if FieldsOk(env, fs, v.fields) { FieldsLength(env, fs, v.fields); }
      return false;
    }
    var i := 0;
    while i < |fs|
      invariant 0 <= i <= |fs| && p.Valid() && p.pos == |p.buf|
      invariant FieldsOk(env, fs[..i], v.fields[..i])
      invariant p.buf == old(p.buf) + EncFields(env, fs[..i], v.fields[..i])
      invariant p.objects == old(p.objects) + RowsFields(env, fs[..i], v.fields[..i], |old(p.buf)|)
    {
      SoundAt(v.fields, i);
      ok := WriteIn(p, env, fs[i].typ, v.fields[i]);
      if !ok {
        if FieldsOk(env, fs, v.fields) { FieldsPrefix(env, fs, v.fields, i); }
        return;
      }
      FieldsGrows(env, fs, v.fields, i, |old(p.buf)|);
      i := i + 1;
    }
    assert fs[..i] == fs && v.fields[..i] == v.fields;
    return true;
  }

  method WriteChoice(p: Parcel, env: Env, n: string, v: Val) returns (ok: bool)
    requires p.Valid() && p.pos == |p.buf| && Sound(v)
    modifies p
    ensures p.Valid() && p.pos == |p.buf|
    ensures ok <==> ChoiceOk(env, n, v)
    ensures ok ==> p.buf == old(p.buf) + EncChoice(env, n, v)
    ensures ok ==> p.objects == old(p.objects) + RowsChoice(env, n, v, |old(p.buf)|)
    decreases v, 0
  {
    hide HasType, EncIn, EncCount, Overwrite, Sound, RowsIn;
    PartsSound(v);
    if n !in env || !env[n].Choice? || !v.Variant? || v.tag >= |env[n].variants| || v.tag > MAX_INT32 {
      return false;
    }
    p.WriteCount(v.tag);
    ok := WriteIn(p, env, env[n].variants[v.tag], v.value);
  }

  method WriteSlice(p: Parcel, env: Env, t: Type, v: Val) returns (ok: bool)
    requires p.Valid() && p.pos == |p.buf| && Sound(v)
    modifies p
    ensures p.Valid() && p.pos == |p.buf|
    ensures ok <==> HasType(env, Slice(t), v)
    ensures ok ==> p.buf == old(p.buf) + Enc(env, Slice(t), v)
    ensures ok ==> p.objects == old(p.objects) + RowsOf(env, Slice(t), v, |old(p.buf)|)
    decreases v, 1
  {
    hide HasType, Enc, AllOk, EncAll, EncCount, EncI32, Overwrite, Sound, RowsOf, RowsAll;
    SliceLevel(env, t, v, p.pos);
    if v.Nil? {
      p.WriteInt32(-1);
      return true;
    }
    if !v.Items? || |v.items| > MAX_INT32 {
      return false;
    }
    p.WriteCount(|v.items|);
    ok := WriteItems(p, env, t, v);
  }

  method WriteItems(p: Parcel, env: Env, t: Type, v: Val) returns (ok: bool)
    requires p.Valid() && p.pos == |p.buf| && v.Items? && Sound(v)
    modifies p
    ensures p.Valid() && p.pos == |p.buf|
    ensures ok <==> AllOk(env, t, v.items)
    ensures ok ==> p.buf == old(p.buf) + EncAll(env, t, v.items)
    ensures ok ==> p.objects == old(p.objects) + RowsAll(env, t, v.items, |old(p.buf)|)
    decreases v, 0
  {
    hide HasType, EncIn, Sound, AllSound, RowsIn, AllOk, EncAll, RowsAll;
    PartsSound(v);
    NoItems(env, t, p.pos);
    var i := 0;
    while i < |v.items|
      invariant 0 <= i <= |v.items| && p.Valid() && p.pos == |p.buf|
      invariant AllOk(env, t, v.items[..i])
      invariant p.buf == old(p.buf) + EncAll(env, t, v.items[..i])
      invariant p.objects == old(p.objects) + RowsAll(env, t, v.items[..i], |old(p.buf)|)
    {
      SoundAt(v.items, i);
      ok := WriteIn(p, env, t, v.items[i]);
      if !ok {
        if AllOk(env, t, v.items) { AllPrefix(env, t, v.items, i); }
        return;
      }
      AllGrows(env, t, v.items, i, |old(p.buf)|);
      i := i + 1;
    }
    assert v.items[..i] == v.items;
    return true;
  }

  method WriteMap(p: Parcel, env: Env, k: Type, t: Type, v: Val) returns (ok: bool)
    requires p.Valid() && p.pos == |p.buf| && Sound(v)
    modifies p
    ensures p.Valid() && p.pos == |p.buf|
    ensures ok <==> HasType(env, Map(k, t), v)
    ensures ok ==> p.buf == old(p.buf) + Enc(env, Map(k, t), v)
    ensures ok ==> p.objects == old(p.objects) + RowsOf(env, Map(k, t), v, |old(p.buf)|)
    decreases v, 1
  {
    hide HasType, Enc, AllOk, KeysOk, EncDict, EncCount, EncI32, Overwrite, Sound, RowsOf, RowsDict;
    MapLevel(env, k, t, v, p.pos);
    if v.Nil? {
      p.WriteInt32(-1);
      return true;
    }
    if !v.Dict? || |v.keys| != |v.vals| || |v.vals| > MAX_INT32 {
      return false;
    }
    p.WriteCount(|v.keys|);
    ok := WriteEntries(p, env, k, t, v);
  }

  method WriteEntries(p: Parcel, env: Env, k: Type, t: Type, v: Val) returns (ok: bool)
    requires p.Valid() && p.pos == |p.buf| && v.Dict? && |v.keys| == |v.vals| && Sound(v)
    modifies p
    ensures p.Valid() && p.pos == |p.buf|
    ensures ok <==> KeysOk(env, k, v.keys) && AllOk(env, t, v.vals)
    ensures ok ==> p.buf == old(p.buf) + EncDict(env, k, t, v.keys, v.vals)
    ensures ok ==> p.objects == old(p.objects) + RowsDict(env, k, t, v.keys, v.vals, |old(p.buf)|)
    decreases v, 0
  {
    hide HasType, EncIn, KeyOk, EncKey, EncDict, AllOk, KeysOk, Sound, AllSound, RowsIn, RowsDict;
    EmptyDict(env, k, t, p.pos);
    PartsSound(v);
    var i := 0;
    while i < |v.vals|
      invariant 0 <= i <= |v.vals| && p.Valid() && p.pos == |p.buf|
      invariant KeysOk(env, k, v.keys[..i]) && AllOk(env, t, v.vals[..i])
      invariant p.buf == old(p.buf) + EncDict(env, k, t, v.keys[..i], v.vals[..i])
      invariant p.objects == old(p.objects) + RowsDict(env, k, t, v.keys[..i], v.vals[..i], |old(p.buf)|)
    {
      ghost var b := p.buf;
      ok := WriteKey(p, env, k, v.keys[i]);
      if !ok {
        if KeysOk(env, k, v.keys) { KeysPrefix(env, k, v.keys, i); }
        return;
      }
      SoundAt(v.vals, i);
      ok := WriteIn(p, env, t, v.vals[i]);
      if !ok {
        if AllOk(env, t, v.vals) { AllPrefix(env, t, v.vals, i); }
        return;
      }
      assert p.buf == b + (EncKey(env, k, v.keys[i]) + EncIn(env, t, v.vals[i]));
      DictGrows(env, k, t, v.keys, v.vals, i, |old(p.buf)|);
      i := i + 1;
    }
    assert v.keys[..i] == v.keys && v.vals[..i] == v.vals;
    return true;
  }

  // ----- requests and replies -----

  lemma ArgsStep(env: Env, ts: seq<Type>, vs: seq<Val>, i: nat, pos: nat)
    requires |ts| == |vs| && i < |ts|
    ensures ArgsOk(env, ts[i..], vs[i..]) <==> HasType(env, ts[i], vs[i]) && ArgsOk(env, ts[i + 1..], vs[i + 1..])
    ensures ArgsOk(env, ts[i..], vs[i..]) ==>
      EncArgs(env, ts[i..], vs[i..]) == EncIn(env, ts[i], vs[i]) + EncArgs(env, ts[i + 1..], vs[i + 1..])
      && RowsArgs(env, ts[i..], vs[i..], pos)
         == RowsIn(env, ts[i], vs[i], pos) + RowsArgs(env, ts[i + 1..], vs[i + 1..], pos + |EncIn(env, ts[i], vs[i])|)
  {
    hide HasType, EncIn, RowsIn;
    assert ts[i..][1..] == ts[i + 1..] && vs[i..][1..] == vs[i + 1..];
  }

  /** The arguments of a call, or its results, one after the other. */
  method WriteArgs(p: Parcel, env: Env, ts: seq<Type>, vs: seq<Val>) returns (ok: bool)
    requires p.Valid() && p.pos == |p.buf| && |ts| == |vs| && ArgsSound(vs)
    modifies p
    ensures p.Valid() && p.pos == |p.buf|
    ensures ok <==> ArgsOk(env, ts, vs)
    ensures ok ==> p.buf == old(p.buf) + EncArgs(env, ts, vs)
    ensures ok ==> p.objects == old(p.objects) + RowsArgs(env, ts, vs, |old(p.buf)|)
  {
    hide HasType, EncIn, Sound, ArgsOk, EncArgs, RowsArgs, RowsIn;
    var i := 0;
    ghost var done: seq<byte> := [];
    ghost var rows: seq<ObjectRef> := [];
    assert ts[0..] == ts && vs[0..] == vs;
    while i < |ts|
      invariant 0 <= i <= |ts| && p.Valid() && p.pos == |p.buf| && p.buf == old(p.buf) + done
        && p.objects == old(p.objects) + rows
      invariant ArgsOk(env, ts, vs) <==> ArgsOk(env, ts[i..], vs[i..])
      invariant ArgsOk(env, ts, vs) ==> EncArgs(env, ts, vs) == done + EncArgs(env, ts[i..], vs[i..])
      invariant ArgsOk(env, ts, vs) ==>
        RowsArgs(env, ts, vs, |old(p.buf)|) == rows + RowsArgs(env, ts[i..], vs[i..], p.pos)
    {
      ArgsStep(env, ts, vs, i, p.pos);
      ghost var at := p.pos;
      ok := WriteIn(p, env, ts[i], vs[i]);
      if !ok {
        return;
      }
      done := done + EncIn(env, ts[i], vs[i]);
      rows := rows + RowsIn(env, ts[i], vs[i], at);
      i := i + 1;
    }
    NoArgs(env, ts[i..], vs[i..], p.pos);
    return true;
  }

  lemma NoArgs(env: Env, ts: seq<Type>, vs: seq<Val>, pos: nat)
    requires ts == [] && vs == []
    ensures ArgsOk(env, ts, vs) && EncArgs(env, ts, vs) == [] && RowsArgs(env, ts, vs, pos) == []
  {
  }

  /** What the proxy of a method writes into a new parcel is the request of the call. */
  method WriteRequest(p: Parcel, env: Env, iface: Interface, m: Method, args: seq<Val>) returns (ok: bool)
    requires p.Valid() && p.buf == [] && |m.inputs| == |args| && ArgsSound(args)
    modifies p
    ensures p.Valid() && p.pos == |p.buf|
    ensures ok <==> TextFits(iface.descriptor) && ArgsOk(env, m.inputs, args)
    ensures ok ==> p.buf == Request(env, iface, m, args)
    ensures ok ==> p.objects == old(p.objects) + RequestRows(env, iface, m, args)
  {
    hide ArgsOk, EncArgs, RowsArgs, EncText, EncI32, LE32, TextFits, ArgsSound, Overwrite;
    assert Padded(LE32(REQUEST_FLAGS)) == LE32(REQUEST_FLAGS) && Padded(LE32(SYST)) == LE32(SYST);
    p.WriteBlock(LE32(REQUEST_FLAGS));
    p.WriteInt32(-1);
    p.WriteBlock(LE32(SYST));
    ok := p.WriteString(iface.descriptor);
    if !ok {
      return;
    }
    assert p.buf == Token(iface.descriptor);
    ok := WriteArgs(p, env, m.inputs, args);
  }

  /** What the handler writes for results is the reply of the call. */
  method WriteReply(p: Parcel, env: Env, m: Method, results: seq<Val>) returns (ok: bool)
    requires p.Valid() && p.buf == [] && p.objects == [] && !m.oneway && |Replies(m)| == |results| && ArgsSound(results)
    modifies p
    ensures p.Valid() && p.pos == |p.buf|
    ensures Answered(env, m, Returned(results)) == if ok then Reply(p.buf, p.objects) else Error
  {
    hide ArgsOk, EncArgs, RowsArgs, EncI32, ArgsSound, Overwrite, Replies;
    p.WriteInt32(NONE);
    ok := WriteArgs(p, env, Replies(m), results);
  }
}
