/** The imperative writer and reader of dynamic values: cursor moves, loops and
    back-patched lengths, proved to append and to return what the pure codec says. */
module DynamicIO {
  import opened Bytes
  import opened Common
  import opened Wire
  import opened Objects
  import opened Parcels
  import opened DynamicValues
  import Utf16

  // ----- growing a tree one element at a time -----

  lemma {:induction false} EncAllSnoc(ts: seq<Tree>, t: Tree)
    requires AllWritable(ts) && Writable(t)
    ensures AllWritable(ts + [t]) && EncAll(ts + [t]) == EncAll(ts) + Enc(t)
  {
    hide Enc, Writable;
    assert AllWritable(ts + [t]);
    if ts == [] {
      assert ts + [t] == [t] && EncAll([t]) == Enc(t) + EncAll([]);
    } else {
      EncAllSnoc(ts[1..], t);
      assert (ts + [t])[1..] == ts[1..] + [t];
    }
  }

  lemma {:induction false} RowsOfAllSnoc(ts: seq<Tree>, t: Tree, pos: nat)
    requires AllWritable(ts) && Writable(t) && AllWritable(ts + [t])
    ensures RowsOfAll(ts + [t], pos) == RowsOfAll(ts, pos) + RowsOf(t, pos + |EncAll(ts)|)
    decreases ts
  {
    hide Enc, Writable, RowsOf;
    if ts == [] {
      assert ts + [t] == [t] && RowsOfAll([t], pos) == RowsOf(t, pos) + RowsOfAll([], pos + |Enc(t)|);
    } else {
      RowsOfAllSnoc(ts[1..], t, pos + |Enc(ts[0])|);
      assert (ts + [t])[1..] == ts[1..] + [t];
    }
  }

  lemma {:induction false} EncEntriesSnoc(es: seq<Entry>, e: Entry)
    requires EntriesWritable(es) && EntryWritable(e)
    ensures EntriesWritable(es + [e]) && EncEntries(es + [e]) == EncEntries(es) + EncEntry(e)
  {
    hide EncEntry, EntryWritable;
    assert EntriesWritable(es + [e]);
    if es == [] {
      assert es + [e] == [e] && EncEntries([e]) == EncEntry(e) + EncEntries([]);
    } else {
      EncEntriesSnoc(es[1..], e);
      assert (es + [e])[1..] == es[1..] + [e];
    }
  }

  lemma {:induction false} RowsOfEntriesSnoc(es: seq<Entry>, e: Entry, pos: nat)
    requires EntriesWritable(es) && EntryWritable(e) && EntriesWritable(es + [e])
    ensures RowsOfEntries(es + [e], pos) == RowsOfEntries(es, pos) + RowsOfEntry(e, pos + |EncEntries(es)|)
    decreases es
  {
    hide EncEntry, EntryWritable, RowsOfEntry;
    if es == [] {
      assert es + [e] == [e] && RowsOfEntries([e], pos) == RowsOfEntry(e, pos) + RowsOfEntries([], pos + |EncEntry(e)|);
    } else {
      RowsOfEntriesSnoc(es[1..], e, pos + |EncEntry(es[0])|);
      assert (es + [e])[1..] == es[1..] + [e];
    }
  }

  /** A fresh key adds one binding at the end of the walk. */
  lemma {:induction false} ForgetEntriesSnoc(es: seq<Entry>, e: Entry)
    requires e.key !in ForgetEntries(es)
    ensures ForgetEntries(es + [e]) == ForgetEntries(es)[e.key := EntryValue(e)]
  {
    hide EntryValue;
    if es == [] {
      assert es + [e] == [e];
      assert ForgetEntries([e]) == map[e.key := EntryValue(e)] + ForgetEntries([]);
    } else {
      var head, rest := map[es[0].key := EntryValue(es[0])], ForgetEntries(es[1..]);
      assert ForgetEntries(es) == head + rest;
      ForgetEntriesSnoc(es[1..], e);
      assert (es + [e])[1..] == es[1..] + [e];
      assert ForgetEntries(es + [e]) == head + rest[e.key := EntryValue(e)];
    }
  }

  lemma {:induction false} WalkSnoc(es: seq<Entry>, e: Entry)
    requires EntriesWalk(es) && EntryWalk(e) && e.key !in ForgetEntries(es)
    ensures EntriesWalk(es + [e])
  {
    hide EntryWalk, EntryValue;
    if es == [] {
      assert es + [e] == [e] && [e][1..] == [];
    } else {
      assert (es + [e])[1..] == es[1..] + [e];
      WalkSnoc(es[1..], e);
      ForgetEntriesSnoc(es[1..], e);
    }
  }

  lemma {:induction false} EncElemsSnoc(kind: ElemKind, xs: seq<int>, x: int)
    requires (forall y :: y in xs ==> InRange(kind, y)) && InRange(kind, x)
    ensures (forall y :: y in xs + [x] ==> InRange(kind, y))
      && EncElems(kind, xs + [x]) == EncElems(kind, xs) + EncElem(kind, x)
  {
    hide InRange, EncElem;
    if xs == [] {
      assert xs + [x] == [x] && EncElems(kind, [x]) == EncElem(kind, x) + EncElems(kind, []);
    } else {
      EncElemsSnoc(kind, xs[1..], x);
      assert (xs + [x])[1..] == xs[1..] + [x];
    }
  }

  lemma {:induction false} EncTextsSnoc(ts: seq<Utf16.text>, s: Utf16.text)
    ensures EncTexts(ts + [s]) == EncTexts(ts) + EncText(s)
  {
    hide EncText;
    if ts == [] {
      assert ts + [s] == [s] && EncTexts([s]) == EncText(s) + EncTexts([]);
    } else {
      EncTextsSnoc(ts[1..], s);
      assert (ts + [s])[1..] == ts[1..] + [s];
    }
  }

  // ----- writer -----

  /** What can be written: leaves in range, counts that fit, proper binders. */
  predicate ValueOk(v: Value) {
    match v
    case Atom(l) => LeafOk(l)
    case List(items) => |items| <= MAX_INT32 && forall i :: 0 <= i < |items| ==> ValueOk(items[i])
    case Map(m) => |m| <= MAX_INT32 && forall k :: k in m ==> LeafOk(Scalar(k)) && ValueOk(m[k])
  }

  /** Typing facts Go gives for free: array elements are in the range of their kind. */
  predicate WellTyped(v: Value) {
    match v
    case Atom(Array(kind, Some(xs))) => forall x :: x in xs ==> InRange(kind, x)
    case Atom(Strong(r)) => r.Proper()
    case Atom(_) => true
    case List(items) => forall i :: 0 <= i < |items| ==> WellTyped(items[i])
    case Map(m) => forall k :: k in m ==> WellTyped(m[k])
  }

  /** The state a successful write of a tree leaves, in terms of the state before. */
  ghost predicate Appended(b0: seq<byte>, o0: seq<ObjectRef>, b1: seq<byte>, o1: seq<ObjectRef>, t: Tree) {
    Writable(t) && b1 == b0 + Enc(t) && o1 == o0 + RowsOf(t, |b0|)
  }

  method WriteKeyBody(p: Parcel, k: Key) returns (ok: bool)
    requires p.Valid() && p.pos == |p.buf|
    modifies p
    ensures p.Valid() && p.pos == |p.buf| && p.objects == old(p.objects)
    ensures ok <==> LeafOk(Scalar(k))
    ensures ok ==> p.buf == old(p.buf) + KeyBody(k)
  {
    hide EncI32, EncI64, EncText, EncBool, Overwrite, TextFits;
    ok := true;
    match k
    case KNull => {}
    case KText(s) => ok := p.WriteString(s);
    case KInt(i) => p.WriteInt32(i);
    case KShort(h) => p.WriteInt32(h);
    case KLong(l) => p.WriteInt64(l);
    case KByte(y) => p.WriteInt32(y);
    case KChar(c) => p.WriteInt32(c);
    case KBool(b) => p.WriteBool(b);
    case KGo(n) => if Small(n) { p.WriteInt32(n); } else { p.WriteInt64(n); }
  }

  method WriteKey(p: Parcel, k: Key) returns (ok: bool)
    requires p.Valid() && p.pos == |p.buf|
    modifies p
    ensures p.Valid() && p.pos == |p.buf| && p.objects == old(p.objects)
    ensures ok <==> LeafOk(Scalar(k))
    ensures ok ==> p.buf == old(p.buf) + EncKey(k)
  {
    hide EncI32, KeyBody, KeyTag, Overwrite, LeafOk;
    p.WriteInt32(KeyTag(k));
    ok := WriteKeyBody(p, k);
  }

  /** `WriteSlice` over the elements of a typed array. */
  method WriteElems(p: Parcel, kind: ElemKind, xs: seq<int>) returns (ok: bool)
    requires p.Valid() && p.pos == |p.buf|
    requires forall x :: x in xs ==> InRange(kind, x)
    modifies p
    ensures p.Valid() && p.pos == |p.buf| && p.objects == old(p.objects)
    ensures ok <==> |xs| <= MAX_INT32
    ensures ok ==> p.buf == old(p.buf) + (EncCount(|xs|) + EncElems(kind, xs))
  {
    hide InRange, EncElem, EncCount;
    if |xs| > MAX_INT32 {
      return false;
    }
    p.WriteCount(|xs|);
    for i := 0 to |xs|
      invariant p.Valid() && p.pos == |p.buf| && p.objects == old(p.objects)
      invariant p.buf == old(p.buf) + EncCount(|xs|) + EncElems(kind, xs[..i])
    {
      WriteElem(p, kind, xs[i]);
      EncElemsSnoc(kind, xs[..i], xs[i]);
      assert xs[..i + 1] == xs[..i] + [xs[i]];
    }
    assert xs[..|xs|] == xs;
    return true;
  }

  method WriteElem(p: Parcel, kind: ElemKind, x: int)
    requires p.Valid() && p.pos == |p.buf| && InRange(kind, x)
    modifies p
    ensures p.Valid() && p.pos == |p.buf| && p.objects == old(p.objects)
    ensures p.buf == old(p.buf) + EncElem(kind, x)
  {
    hide EncI32, EncI64, LE32, LE64;
    match kind
    case Ints => p.WriteInt32(x);
    case Longs => p.WriteInt64(x);
    case Shorts => p.WriteInt32(x);
    case Chars => p.WriteInt32(x);
    case Floats =>
      assert Padded(LE32(x)) == LE32(x);
      p.WriteBlock(LE32(x));
    case Doubles =>
      assert Padded(LE64(x)) == LE64(x);
      p.WriteBlock(LE64(x));
  }

  method WriteTexts(p: Parcel, ts: seq<Utf16.text>) returns (ok: bool)
    requires p.Valid() && p.pos == |p.buf|
    modifies p
    ensures p.Valid() && p.pos == |p.buf| && p.objects == old(p.objects)
    ensures ok <==> LeafOk(Texts(Some(ts)))
    ensures ok ==> p.buf == old(p.buf) + (EncCount(|ts|) + EncTexts(ts))
  {
    hide EncText, EncCount, TextFits;
    if |ts| > MAX_INT32 {
      return false;
    }
    p.WriteCount(|ts|);
    for i := 0 to |ts|
      invariant p.Valid() && p.pos == |p.buf| && p.objects == old(p.objects)
      invariant forall s :: s in ts[..i] ==> TextFits(s)
      invariant p.buf == old(p.buf) + EncCount(|ts|) + EncTexts(ts[..i])
    {
      var one := p.WriteString(ts[i]);
      if !one {
        assert ts[i] in ts;
        return false;
      }
      EncTextsSnoc(ts[..i], ts[i]);
      assert ts[..i + 1] == ts[..i] + [ts[i]];
    }
    assert ts[..|ts|] == ts;
    return true;
  }

  method WriteLeaf(p: Parcel, l: Leaf) returns (ok: bool)
    requires p.Valid() && p.pos == |p.buf| && WellTyped(Atom(l))
    modifies p
    ensures p.Valid() && p.pos == |p.buf|
    ensures ok <==> LeafOk(l)
    ensures ok ==> Appended(old(p.buf), old(p.objects), p.buf, p.objects, TAtom(l))
  {
    hide EncI32, LeafTag, LeafBody, Overwrite, LeafOk, WellTyped;
    p.WriteInt32(LeafTag(l));
    ok := WriteLeafBody(p, l);
  }

  method WriteLeafBody(p: Parcel, l: Leaf) returns (ok: bool)
    requires p.Valid() && p.pos == |p.buf| && WellTyped(Atom(l)) && p.pos >= 4
    modifies p
    ensures p.Valid() && p.pos == |p.buf|
    ensures ok <==> LeafOk(l)
    ensures ok ==> p.buf == old(p.buf) + LeafBody(l) && p.objects == old(p.objects) + RowsOf(TAtom(l), old(p.pos) - 4)
  {
    hide EncI32, EncCount, EncTexts, EncElems, EncRaw, EncBinder, LE32, LE64, Overwrite, KeyBody;
    ok := true;
    match l
    case Scalar(k) => ok := WriteKeyBody(p, k);
    case NilList => {}
    case Float(bits) => WriteElem(p, Floats, bits);
    case Double(bits) => WriteElem(p, Doubles, bits);
    case Blob(None) => p.WriteInt32(-1);
    case Blob(Some(b)) => ok := p.WriteBytes(b);
    case Texts(None) => p.WriteInt32(-1);
    case Texts(Some(ts)) => ok := WriteTexts(p, ts);
    case Array(_, None) => p.WriteInt32(-1);
    case Array(kind, Some(xs)) => ok := WriteElems(p, kind, xs);
    case NilMap => WriteNilMapBody(p);
    case Strong(r) => p.WriteStrongBinder(r);
  }

  /** A length slot, the nil count, and the slot patched to 4. */
  method WriteNilMapBody(p: Parcel)
    requires p.Valid() && p.pos == |p.buf|
    modifies p
    ensures p.Valid() && p.pos == |p.buf| && p.objects == old(p.objects)
    ensures p.buf == old(p.buf) + (EncCount(4) + EncI32(-1))
  {
    hide EncI32, EncCount, Overwrite;
    var start := p.pos;
    p.WriteInt32(0);
    p.WriteInt32(-1);
    ghost var b := p.buf;
    EndBody(p, start);
    assert b[..start] == old(p.buf) && b[start + 4..] == EncI32(-1);
  }

  /** Goes back to the length slot, writes the byte length of what follows it, and
      returns to the end. */
  method EndBody(p: Parcel, start: nat)
    requires p.Valid() && p.pos == |p.buf| && start + 4 <= |p.buf|
    modifies p
    ensures p.Valid() && p.pos == |p.buf| && p.objects == old(p.objects)
    ensures p.buf == old(p.buf)[..start] + EncCount(|old(p.buf)| - start - 4) + old(p.buf)[start + 4..]
  {
    var bodyStart, bodyEnd := start + 4, p.pos;
    var ok := p.SetPosition(start);
    p.WriteCount(bodyEnd - bodyStart);
    ok := p.SetPosition(bodyEnd);
    ghost var b := old(p.buf);
    assert b == b[..start] + b[start..start + 4] + b[start + 4..];
    OverwriteMiddle(b[..start], b[start..start + 4], b[start + 4..], EncCount(bodyEnd - bodyStart));
  }

  /** Appends exactly the encoding of the value, for whatever order `t` its maps were
      walked in, with every length patched; fails only if something does not fit. */
  method WriteDynamicValue(p: Parcel, v: Value) returns (ok: bool, ghost t: Tree)
    requires p.Valid() && p.pos == |p.buf| && WellTyped(v)
    modifies p
    ensures p.Valid() && p.pos == |p.buf|
    ensures ok <==> ValueOk(v)
    ensures ok ==> IsWalk(t) && Forget(t) == v && Appended(old(p.buf), old(p.objects), p.buf, p.objects, t)
    decreases v, 1
  {
    hide EncI32, EncCount, EncLeaf, EncAll, EncEntries, RowsOfAll, RowsOfEntries;
    hide Overwrite, LeafOk, ForgetAll, ForgetEntries, EntriesWalk;
    match v
    case Atom(l) =>
      ok := WriteLeaf(p, l);
      t := TAtom(l);
    case List(items) =>
      p.WriteInt32(TAG_LIST);
      var start := p.pos;
      p.WriteInt32(0);
      ghost var ts;
      ok, ts := WriteItems(p, v);
      t := TList(ts);
      if ok {
        EndBody(p, start);
        Patched(old(p.buf), TAG_LIST, EncCount(|ts|) + EncAll(ts));
      }
    case Map(m) =>
      p.WriteInt32(TAG_MAP);
      var start := p.pos;
      p.WriteInt32(0);
      ghost var es;
      ok, es := WriteEntries(p, v);
      t := TMap(es);
      if ok {
        EndBody(p, start);
        Patched(old(p.buf), TAG_MAP, EncCount(|es|) + EncEntries(es));
      }
  }

  /** Patching the length slot of a finished body gives the prefixed encoding. */
  lemma Patched(b0: seq<byte>, tag: int32, body: seq<byte>)
    ensures var b := b0 + EncI32(tag) + EncI32(0) + body;
            b[..|b0| + 4] + EncCount(|b| - (|b0| + 4) - 4) + b[|b0| + 8..] == b0 + Prefixed(tag, body)
  {
    hide EncI32, EncCount;
    var b := b0 + EncI32(tag) + EncI32(0) + body;
    assert b[..|b0| + 4] == b0 + EncI32(tag);
    assert b[|b0| + 8..] == body;
  }

  lemma NothingWritten(pos: nat)
    ensures EncAll([]) == [] && RowsOfAll([], pos) == []
  {}

  method WriteItems(p: Parcel, v: Value) returns (ok: bool, ghost ts: seq<Tree>)
    requires v.List? && p.Valid() && p.pos == |p.buf| && WellTyped(v)
    modifies p
    ensures p.Valid() && p.pos == |p.buf|
    ensures ok <==> ValueOk(v)
    ensures ok ==> AllWritable(ts) && ForgetAll(ts) == v.items && |ts| <= MAX_INT32
    ensures ok ==> forall i :: 0 <= i < |ts| ==> IsWalk(ts[i])
    ensures ok ==> p.buf == old(p.buf) + (EncCount(|ts|) + EncAll(ts))
    ensures ok ==> p.objects == old(p.objects) + RowsOfAll(ts, |old(p.buf)| + 4)
    decreases v, 0
  {
    hide EncCount, Enc, Writable, Forget, RowsOf, Overwrite, EncAll, RowsOfAll, ForgetAll, IsWalk;
    NothingWritten(|old(p.buf)| + 4);
    var items := v.items;
    ts := [];
    if |items| > MAX_INT32 {
      return false, ts;
    }
    p.WriteCount(|items|);
    for i := 0 to |items|
      invariant p.Valid() && p.pos == |p.buf|
      invariant |ts| == i && AllWritable(ts)
      invariant forall k :: 0 <= k < i ==> Forget(ts[k]) == items[k] && ValueOk(items[k])
      invariant forall k :: 0 <= k < i ==> IsWalk(ts[k])
      invariant p.buf == old(p.buf) + EncCount(|items|) + EncAll(ts)
      invariant p.objects == old(p.objects) + RowsOfAll(ts, |old(p.buf)| + 4)
    {
      var one;
      ghost var t;
      one, t := WriteDynamicValue(p, items[i]);
      if !one {
        return false, ts;
      }
      EncAllSnoc(ts, t);
      RowsOfAllSnoc(ts, t, |old(p.buf)| + 4);
      ts := ts + [t];
    }
    assert ForgetAll(ts) == items;
    return true, ts;
  }

  /** What the loop over a map has done when the keys of `left` are still to come. */
  ghost predicate Walked(m: map<Key, Value>, left: set<Key>, es: seq<Entry>) {
    left <= m.Keys && |es| + |left| == |m| && EntriesWritable(es) && EntriesWalk(es)
    && ForgetEntries(es) == (map k | k in m.Keys - left :: m[k])
    && forall k :: k in m.Keys - left ==> LeafOk(Scalar(k)) && ValueOk(m[k])
  }

  lemma WalkStep(m: map<Key, Value>, left: set<Key>, es: seq<Entry>, e: Entry)
    requires Walked(m, left, es) && e.key in left && Forget(e.tree) == m[e.key]
    requires EntryWritable(e) && EntryWalk(e) && LeafOk(Scalar(e.key)) && ValueOk(m[e.key])
    ensures Walked(m, left - {e.key}, es + [e]) && EntriesWritable(es + [e])
  {
    hide EncEntry, EncEntries, ForgetEntries, EntryWritable, Forget, ValueOk, LeafOk, EntryWalk, EntriesWalk;
    ForgetEntriesSnoc(es, e);
    WalkSnoc(es, e);
    assert EntryValue(e) == m[e.key];
    EncEntriesSnoc(es, e);
    assert m.Keys - (left - {e.key}) == (m.Keys - left) + {e.key};
  }

  lemma WalkStart(m: map<Key, Value>, pos: nat)
    ensures Walked(m, m.Keys, []) && EncEntries([]) == [] && RowsOfEntries([], pos) == []
  {
    assert |m.Keys| == |m|;
  }

  lemma WalkEnd(m: map<Key, Value>, es: seq<Entry>)
    requires Walked(m, {}, es)
    ensures ForgetEntries(es) == m && |es| == |m| && EntriesWritable(es) && EntriesWalk(es)
    ensures |m| <= MAX_INT32 ==> ValueOk(Map(m))
  {
    assert m.Keys - {} == m.Keys;
  }

  method WriteEntries(p: Parcel, v: Value) returns (ok: bool, ghost es: seq<Entry>)
    requires v.Map? && p.Valid() && p.pos == |p.buf| && WellTyped(v)
    modifies p
    ensures p.Valid() && p.pos == |p.buf|
    ensures ok <==> ValueOk(v)
    ensures ok ==> EntriesWritable(es) && EntriesWalk(es) && ForgetEntries(es) == v.m && |es| <= MAX_INT32
    ensures ok ==> p.buf == old(p.buf) + (EncCount(|es|) + EncEntries(es))
    ensures ok ==> p.objects == old(p.objects) + RowsOfEntries(es, |old(p.buf)| + 4)
    decreases v, 0
  {
    hide EncCount, EncEntry, Overwrite, EncEntries, RowsOfEntries, ForgetEntries, Forget;
    hide EntryWritable, RowsOfEntry, Walked, LeafOk, Writable, EntryWalk, EntriesWalk;
    var m := v.m;
    es := [];
    if |m| > MAX_INT32 {
      return false, es;
    }
    p.WriteCount(|m|);
    var left := m.Keys;
    WalkStart(m, |old(p.buf)| + 4);
    while left != {}
      invariant p.Valid() && p.pos == |p.buf| && left <= m.Keys && Walked(m, left, es) && EntriesWritable(es)
      invariant p.buf == old(p.buf) + EncCount(|m|) + EncEntries(es)
      invariant p.objects == old(p.objects) + RowsOfEntries(es, |old(p.buf)| + 4)
      decreases left
    {
      var k :| k in left;
      var one;
      ghost var e;
      one, e := WriteEntry(p, v, k);
      if !one {
        return false, es;
      }
      WalkStep(m, left, es, e);
      EncEntriesSnoc(es, e);
      RowsOfEntriesSnoc(es, e, |old(p.buf)| + 4);
      es := es + [e];
      left := left - {k};
    }
    WalkEnd(m, es);
    return true, es;
  }

  method WriteEntry(p: Parcel, v: Value, k: Key) returns (ok: bool, ghost e: Entry)
    requires v.Map? && k in v.m && p.Valid() && p.pos == |p.buf| && WellTyped(v)
    modifies p
    ensures p.Valid() && p.pos == |p.buf|
    ensures ok <==> LeafOk(Scalar(k)) && ValueOk(v.m[k])
    ensures ok ==> e.key == k && EntryWritable(e) && EntryWalk(e) && Forget(e.tree) == v.m[k]
    ensures ok ==> p.buf == old(p.buf) + EncEntry(e) && p.objects == old(p.objects) + RowsOfEntry(e, |old(p.buf)|)
    decreases v, 0, 0
  {
    hide Enc, EncKey, RowsOf, LeafOk, Forget, Writable, IsWalk;
    e := Entry(k, TAtom(NilMap));
    ok := WriteKey(p, k);
    if !ok {
      return;
    }
    ghost var t;
    ok, t := WriteDynamicValue(p, v.m[k]);
    e := Entry(k, t);
  }

  // -- in a given order --

  predicate TreeTyped(t: Tree) {
    match t
    case TAtom(l) => WellTyped(Atom(l))
    case TList(items) => forall i :: 0 <= i < |items| ==> TreeTyped(items[i])
    case TMap(es) => forall i :: 0 <= i < |es| ==> EntryTyped(es[i])
  }

  predicate EntryTyped(e: Entry) { TreeTyped(e.tree) }

  lemma TreeLevel(t: Tree)
    ensures t.TAtom? ==> (TreeTyped(t) <==> WellTyped(Atom(t.leaf))) && (Writable(t) <==> LeafOk(t.leaf))
    ensures t.TList? && Writable(t) ==> AllWritable(t.items)
    ensures t.TMap? && Writable(t) ==> EntriesWritable(t.entries)
  {
    hide WellTyped, LeafOk;
  }

  /** The same writer, for maps that are walked in the order of the tree. */
  method WriteTree(p: Parcel, t: Tree) returns (ok: bool)
    requires p.Valid() && p.pos == |p.buf| && TreeTyped(t)
    modifies p
    ensures p.Valid() && p.pos == |p.buf|
    ensures ok <==> Writable(t)
    ensures ok ==> Appended(old(p.buf), old(p.objects), p.buf, p.objects, t)
    decreases t, 1
  {
    hide EncI32, EncCount, EncLeaf, EncAll, EncEntries, RowsOfAll;
    hide RowsOfEntries, Overwrite, LeafOk, WellTyped, TreeTyped, Writable;
    TreeLevel(t);
    match t
    case TAtom(l) => ok := WriteLeaf(p, l);
    case TList(items) =>
      p.WriteInt32(TAG_LIST);
      var start := p.pos;
      p.WriteInt32(0);
      ok := WriteTreeItems(p, t);
      if ok {
        EndBody(p, start);
        Patched(old(p.buf), TAG_LIST, EncCount(|items|) + EncAll(items));
      }
    case TMap(es) =>
      p.WriteInt32(TAG_MAP);
      var start := p.pos;
      p.WriteInt32(0);
      ok := WriteTreeEntries(p, t);
      if ok {
        EndBody(p, start);
        Patched(old(p.buf), TAG_MAP, EncCount(|es|) + EncEntries(es));
      }
  }

  method WriteTreeItems(p: Parcel, t: Tree) returns (ok: bool)
    requires t.TList? && p.Valid() && p.pos == |p.buf| && TreeTyped(t)
    modifies p
    ensures p.Valid() && p.pos == |p.buf|
    ensures ok <==> Writable(t)
    ensures ok ==> p.buf == old(p.buf) + (EncCount(|t.items|) + EncAll(t.items))
    ensures ok ==> p.objects == old(p.objects) + RowsOfAll(t.items, |old(p.buf)| + 4)
    decreases t, 0
  {
    hide EncCount, Enc, RowsOf, Overwrite, EncAll, RowsOfAll;
    NothingWritten(|old(p.buf)| + 4);
    var ts := t.items;
    if |ts| > MAX_INT32 {
      return false;
    }
    p.WriteCount(|ts|);
    for i := 0 to |ts|
      invariant p.Valid() && p.pos == |p.buf| && AllWritable(ts[..i])
      invariant p.buf == old(p.buf) + EncCount(|ts|) + EncAll(ts[..i])
      invariant p.objects == old(p.objects) + RowsOfAll(ts[..i], |old(p.buf)| + 4)
    {
      ok := WriteTree(p, ts[i]);
      if !ok {
        return;
      }
      EncAllSnoc(ts[..i], ts[i]);
      RowsOfAllSnoc(ts[..i], ts[i], |old(p.buf)| + 4);
      assert ts[..i + 1] == ts[..i] + [ts[i]];
    }
    assert ts[..|ts|] == ts;
    return true;
  }

  method WriteTreeEntries(p: Parcel, t: Tree) returns (ok: bool)
    requires t.TMap? && p.Valid() && p.pos == |p.buf| && TreeTyped(t)
    modifies p
    ensures p.Valid() && p.pos == |p.buf|
    ensures ok <==> Writable(t)
    ensures ok ==> p.buf == old(p.buf) + (EncCount(|t.entries|) + EncEntries(t.entries))
    ensures ok ==> p.objects == old(p.objects) + RowsOfEntries(t.entries, |old(p.buf)| + 4)
    decreases t, 0
  {
    hide EncCount, EncEntry, Overwrite, EncEntries, RowsOfEntries, RowsOfEntry, EntryWritable, EntryTyped;
    NoEntries(|old(p.buf)| + 4);
    var es := t.entries;
    if |es| > MAX_INT32 {
      return false;
    }
    p.WriteCount(|es|);
    for i := 0 to |es|
      invariant p.Valid() && p.pos == |p.buf| && EntriesWritable(es[..i])
      invariant p.buf == old(p.buf) + EncCount(|es|) + EncEntries(es[..i])
      invariant p.objects == old(p.objects) + RowsOfEntries(es[..i], |old(p.buf)| + 4)
    {
      ok := WriteTreeEntry(p, es[i]);
      if !ok {
        return;
      }
      EncEntriesSnoc(es[..i], es[i]);
      RowsOfEntriesSnoc(es[..i], es[i], |old(p.buf)| + 4);
      assert es[..i + 1] == es[..i] + [es[i]];
    }
    assert es[..|es|] == es;
    return true;
  }

  lemma NoEntries(pos: nat)
    ensures EncEntries([]) == [] && RowsOfEntries([], pos) == []
  {
  }

  method WriteTreeEntry(p: Parcel, e: Entry) returns (ok: bool)
    requires p.Valid() && p.pos == |p.buf| && EntryTyped(e)
    modifies p
    ensures p.Valid() && p.pos == |p.buf|
    ensures ok <==> EntryWritable(e)
    ensures ok ==> p.buf == old(p.buf) + EncEntry(e) && p.objects == old(p.objects) + RowsOfEntry(e, |old(p.buf)|)
    decreases e, 2
  {
    hide Enc, EncKey, RowsOf, LeafOk, Writable, TreeTyped;
    ok := WriteKey(p, e.key);
    if !ok {
      return;
    }
    ok := WriteTree(p, e.tree);
  }

  // ----- reader -----

  /** What a list reader returns when `done` was already read before `r`. */
  function After<T>(done: seq<T>, r: Read<seq<T>>): Read<seq<T>> {
    match r
    case Fail => Fail
    case Ok(v, pos) => Ok(done + v, pos)
  }

  lemma AfterNil<T>(done: seq<T>, r: Read<seq<T>>, pos: nat)
    ensures After([], r) == r && After(done, Ok([], pos)) == Ok(done, pos)
  {
    if r.Ok? {
      assert [] + r.value == r.value;
    }
    assert done + [] == done;
  }

  lemma AfterStep<T>(done: seq<T>, x: T, r: Read<seq<T>>)
    ensures After(done + [x], r) == After(done, After([x], r))
  {
    if r.Ok? {
      assert done + [x] + r.value == done + ([x] + r.value);
    }
  }

  method ReadElemList(p: Parcel, kind: ElemKind, n: nat) returns (r: Read<seq<int>>)
    requires p.Valid()
    modifies p`pos
    ensures p.Valid() && r == ReadElems(kind, p.buf, old(p.pos), n)
    ensures r.Ok? ==> p.pos == r.pos
  {
    hide ReadElem;
    var xs: seq<int> := [];
    AfterNil(xs, ReadElems(kind, p.buf, p.pos, n), 0);
    for i := 0 to n
      invariant p.Valid()
      invariant ReadElems(kind, p.buf, old(p.pos), n) == After(xs, ReadElems(kind, p.buf, p.pos, n - i))
    {
      var x := ReadElem(kind, p.buf, p.pos);
      if x.Fail? {
        return Fail;
      }
      p.pos := x.pos;
      AfterStep(xs, x.value, ReadElems(kind, p.buf, p.pos, n - i - 1));
      xs := xs + [x.value];
    }
    AfterNil(xs, Fail, p.pos);
    return Ok(xs, p.pos);
  }

  method ReadTextList(p: Parcel, n: nat) returns (r: Read<seq<Utf16.text>>)
    requires p.Valid()
    modifies p`pos
    ensures p.Valid() && r == ReadTexts(p.buf, old(p.pos), n)
    ensures r.Ok? ==> p.pos == r.pos
  {
    hide ReadText;
    var ts: seq<Utf16.text> := [];
    AfterNil(ts, ReadTexts(p.buf, p.pos, n), 0);
    for i := 0 to n
      invariant p.Valid()
      invariant ReadTexts(p.buf, old(p.pos), n) == After(ts, ReadTexts(p.buf, p.pos, n - i))
    {
      var s := p.ReadString();
      if s.Fail? {
        return Fail;
      }
      AfterStep(ts, s.value, ReadTexts(p.buf, p.pos, n - i - 1));
      ts := ts + [s.value];
    }
    AfterNil(ts, Fail, p.pos);
    return Ok(ts, p.pos);
  }

  method ReadArray(p: Parcel, kind: ElemKind) returns (r: Read<Leaf>)
    requires p.Valid()
    modifies p`pos
    ensures p.Valid() && r == DecArray(kind, p.buf, old(p.pos))
    ensures r.Ok? ==> p.pos == r.pos
  {
    hide ReadI32, ReadElems;
    var n := p.ReadInt32();
    if n.Fail? {
      return Fail;
    }
    if n.value < 0 {
      return Ok(Array(kind, None), p.pos);
    }
    var xs := ReadElemList(p, kind, n.value);
    return if xs.Fail? then Fail else Ok(Array(kind, Some(xs.value)), xs.pos);
  }

  method ReadLeafBody(p: Parcel, tag: int32) returns (r: Read<Leaf>)
    requires p.Valid()
    modifies p`pos
    ensures p.Valid() && r == DecLeaf(tag, p.buf, p.objects, old(p.pos))
    ensures r.Ok? ==> p.pos == r.pos
  {
    hide ReadI32, ReadU32, ReadI64, ReadBool, ReadText, ReadRaw, ReadTexts, ReadBinder, DecArray;
    if tag == TAG_INT_ARRAY {
      r := ReadArray(p, Ints);
    } else if tag == TAG_LONG_ARRAY {
      r := ReadArray(p, Longs);
    } else if tag == TAG_SHORT_ARRAY {
      r := ReadArray(p, Shorts);
    } else if tag == TAG_CHAR_ARRAY {
      r := ReadArray(p, Chars);
    } else if tag == TAG_FLOAT_ARRAY {
      r := ReadArray(p, Floats);
    } else if tag == TAG_DOUBLE_ARRAY {
      r := ReadArray(p, Doubles);
    } else if tag == TAG_STRING_ARRAY {
      var n := p.ReadInt32();
      if n.Fail? {
        return Fail;
      }
      if n.value < 0 {
        return Ok(Texts(None), p.pos);
      }
      var ts := ReadTextList(p, n.value);
      r := if ts.Fail? then Fail else Ok(Texts(Some(ts.value)), ts.pos);
    } else if tag == TAG_STRING {
      var s := p.ReadString();
      r := if s.Fail? then Fail else Ok(Scalar(KText(s.value)), s.pos);
    } else if tag == TAG_BYTE_ARRAY {
      var s := p.ReadBytes();
      r := if s.Fail? then Fail else Ok(Blob(s.value), s.pos);
    } else if tag == TAG_IBINDER {
      var s := p.ReadStrongBinder();
      r := if s.Fail? then Fail else Ok(Strong(s.value), s.pos);
    } else {
      r := DecLeaf(tag, p.buf, p.objects, p.pos);
      if r.Ok? {
        p.pos := r.pos;
      }
    }
  }

  /** `finishDynamicLengthPrefix`: checks for overrun, then moves to the end. */
  method FinishAt(p: Parcel, end: nat) returns (ok: bool)
    requires p.Valid()
    modifies p`pos
    ensures p.Valid()
    ensures ok <==> Finish(Ok((), old(p.pos)), end, |p.buf|).Ok?
    ensures ok ==> p.pos == end
  {
    if p.pos > end {
      return false;
    }
    if p.pos == end {
      return true;
    }
    ok := p.SetPosition(end);
  }

  /** Returns what the pure decoder returns at the cursor, and terminates on every
      buffer because each value read leaves fewer bytes. */
  method ReadDynamicValue(p: Parcel) returns (r: Read<Value>)
    requires p.Valid()
    modifies p`pos
    ensures p.Valid() && r == Dec(p.buf, p.objects, old(p.pos))
    ensures r.Ok? ==> p.pos == r.pos
    decreases |p.buf| - p.pos, 0
  {
    hide ReadI32, DecLeaf, DecAll, DecEntries;
    var tag := p.ReadInt32();
    if tag.Fail? {
      return Fail;
    }
    if tag.value != TAG_MAP && tag.value != TAG_LIST {
      var leaf := ReadLeafBody(p, tag.value);
      return if leaf.Fail? then Fail else Ok(Atom(leaf.value), leaf.pos);
    }
    var size := p.ReadInt32();
    if size.Fail? || size.value < 0 {
      return Fail;
    }
    var end := p.pos + size.value;
    var n := p.ReadInt32();
    if n.Fail? {
      return Fail;
    }
    var v: Value;
    if n.value < 0 {
      v := Atom(if tag.value == TAG_MAP then NilMap else NilList);
    } else if tag.value == TAG_MAP {
      var m := ReadEntries(p, n.value);
      if m.Fail? {
        return Fail;
      }
      v := Map(m.value);
    } else {
      var vs := ReadItems(p, n.value);
      if vs.Fail? {
        return Fail;
      }
      v := List(vs.value);
    }
    var ok := FinishAt(p, end);
    return if ok then Ok(v, end) else Fail;
  }

  method ReadItems(p: Parcel, n: nat) returns (r: Read<seq<Value>>)
    requires p.Valid()
    modifies p`pos
    ensures p.Valid() && r == DecAll(p.buf, p.objects, old(p.pos), n)
    ensures r.Ok? ==> p.pos == r.pos
    decreases |p.buf| - p.pos, 1
  {
    hide Dec;
    var vs: seq<Value> := [];
    AfterNil(vs, DecAll(p.buf, p.objects, p.pos, n), 0);
    for i := 0 to n
      invariant p.Valid() && old(p.pos) <= p.pos
      invariant DecAll(p.buf, p.objects, old(p.pos), n) == After(vs, DecAll(p.buf, p.objects, p.pos, n - i))
    {
      var v := ReadDynamicValue(p);
      if v.Fail? {
        return Fail;
      }
      AfterStep(vs, v.value, DecAll(p.buf, p.objects, p.pos, n - i - 1));
      vs := vs + [v.value];
    }
    AfterNil(vs, Fail, p.pos);
    return Ok(vs, p.pos);
  }

  /** What a map reader returns when the bindings `done` were stored before `r`. */
  function AfterMap(done: map<Key, Value>, r: Read<map<Key, Value>>): Read<map<Key, Value>> {
    match r
    case Fail => Fail
    case Ok(m, pos) => Ok(done + m, pos)
  }

  lemma AfterMapNil(done: map<Key, Value>, r: Read<map<Key, Value>>, pos: nat)
    ensures AfterMap(map[], r) == r && AfterMap(done, Ok(map[], pos)) == Ok(done, pos)
  {
    if r.Ok? {
      assert map[] + r.value == r.value;
    }
    assert done + map[] == done;
  }

  lemma AfterMapStep(done: map<Key, Value>, k: Key, v: Value, r: Read<map<Key, Value>>)
    ensures AfterMap(done[k := v], r) == AfterMap(done, AfterMap(map[k := v], r))
  {
    if r.Ok? {
      assert done[k := v] + r.value == done + (map[k := v] + r.value);
    }
  }

  method ReadEntries(p: Parcel, n: nat) returns (r: Read<map<Key, Value>>)
    requires p.Valid()
    modifies p`pos
    ensures p.Valid() && r == DecEntries(p.buf, p.objects, old(p.pos), n)
    ensures r.Ok? ==> p.pos == r.pos
    decreases |p.buf| - p.pos, 1
  {
    hide Dec;
    var m: map<Key, Value> := map[];
    AfterMapNil(m, DecEntries(p.buf, p.objects, p.pos, n), 0);
    for i := 0 to n
      invariant p.Valid() && old(p.pos) <= p.pos
      invariant DecEntries(p.buf, p.objects, old(p.pos), n) == AfterMap(m, DecEntries(p.buf, p.objects, p.pos, n - i))
    {
      var k := ReadDynamicValue(p);
      if k.Fail? {
        return Fail;
      }
      var v := ReadDynamicValue(p);
      if v.Fail? || !k.value.Atom? || !k.value.leaf.Scalar? {
        return Fail;
      }
      AfterMapStep(m, k.value.leaf.k, v.value, DecEntries(p.buf, p.objects, p.pos, n - i - 1));
      m := m[k.value.leaf.k := v.value];
    }
    AfterMapNil(m, Fail, p.pos);
    return Ok(m, p.pos);
  }

  // ----- the whole trip -----

  /** Write, append anything, read: a parcel whose table was sorted still has a sorted
      table, and reading at the place of the write returns the value as the order of its
      walk leaves it. That is the value that was written if and only if no two keys of a map
      come back as one. */
  lemma WriteThenRead(b0: seq<byte>, o0: seq<ObjectRef>, b1: seq<byte>, o1: seq<ObjectRef>, t: Tree,
                      more: seq<byte>, rows: seq<ObjectRef>)
    requires TableWithin(o0, 0, |b0|) && Appended(b0, o0, b1, o1, t) && Sized(t)
    requires TableWithin(rows, |b1|, |b1 + more|) && IsWalk(t)
    ensures TableWithin(o1, 0, |b1|)
    ensures Dec(b1 + more, o1 + rows, |b0|) == Ok(Returned(t), |b1|)
    ensures Same(Forget(t), Returned(t)) <==> KeysApart(Forget(t))
  {
    hide Enc, Dec, RowsOf, Writable, Sized, TableWithin, Forget, Returned, Held, At, IsWalk, Same, KeysApart;
    KeptIff(t);
    RowsOfWithin(t, |b0|);
    TableJoin(o0, RowsOf(t, |b0|), 0, |b0|, |b1|);
    TableJoin(o1, rows, 0, |b1|, |b1 + more|);
    HeldWithin(o0, RowsOf(t, |b0|), rows, |b1 + more|);
    AtAppend(b0, Enc(t), more);
    DecEnc(t, b1 + more, o1 + rows, |b0|);
  }
}
