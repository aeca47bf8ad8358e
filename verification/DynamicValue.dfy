/** The self-describing value codec used for raw maps: a tag, then a body; lists and
    maps carry the byte length of their body, patched in after it is written. */
module DynamicValues {
  import opened Bytes
  import opened Common
  import opened Wire
  import opened Objects
  import Utf16

  // ----- tags -----

  const TAG_NULL := -1
  const TAG_STRING := 0
  const TAG_INTEGER := 1
  const TAG_MAP := 2
  const TAG_SHORT := 5
  const TAG_LONG := 6
  const TAG_FLOAT := 7
  const TAG_DOUBLE := 8
  const TAG_BOOLEAN := 9
  const TAG_LIST := 11
  const TAG_BYTE_ARRAY := 13
  const TAG_STRING_ARRAY := 14
  const TAG_IBINDER := 15
  const TAG_INT_ARRAY := 18
  const TAG_LONG_ARRAY := 19
  const TAG_BYTE := 20
  const TAG_DOUBLE_ARRAY := 28
  const TAG_CHAR := 29
  const TAG_SHORT_ARRAY := 30
  const TAG_CHAR_ARRAY := 31
  const TAG_FLOAT_ARRAY := 32

  // ----- values -----

  /** Hashable scalars other than floats: what a map key can be here. `KGo` is Go's `int`,
      which has no tag of its own. */
  datatype Key =
    | KNull
    | KText(s: Utf16.text)
    | KInt(i: int32)
    | KShort(h: int16)
    | KLong(l: int64)
    | KByte(y: int8)
    | KChar(c: uint16)
    | KBool(b: bool)
    | KGo(n: int64)

  datatype ElemKind = Ints | Longs | Shorts | Chars | Floats | Doubles

  /** Values without parts. Floats are their bit patterns. `NilList` is a nil slice of a
      type without its own tag. */
  datatype Leaf =
    | Scalar(k: Key)
    | Float(bits32: uint32)
    | Double(bits64: uint64)
    | Blob(b: Option<seq<byte>>)
    | Texts(ts: Option<seq<Utf16.text>>)
    | Array(kind: ElemKind, xs: Option<seq<int>>)
    | NilMap
    | NilList
    | Strong(r: BinderRef)

  datatype Value =
    | Atom(leaf: Leaf)
    | List(items: seq<Value>)
    | Map(m: map<Key, Value>)

  /** A value together with the order in which each of its maps is walked. */
  datatype Tree =
    | TAtom(leaf: Leaf)
    | TList(items: seq<Tree>)
    | TMap(entries: seq<Entry>)

  datatype Entry = Entry(key: Key, tree: Tree)

  predicate InRange(kind: ElemKind, x: int) {
    match kind
    case Ints => -0x8000_0000 <= x < 0x8000_0000
    case Longs => -0x8000_0000_0000_0000 <= x < 0x8000_0000_0000_0000
    case Shorts => -0x8000 <= x < 0x8000
    case Chars => 0 <= x < 0x1_0000
    case Floats => 0 <= x < 0x1_0000_0000
    case Doubles => 0 <= x < 0x1_0000_0000_0000_0000
  }

  predicate Small(n: int64) { -0x8000_0000 <= n < 0x8000_0000 }

  /** `int` comes back as int32 if it fits and as int64 otherwise. */
  function CanonKey(k: Key): Key {
    if k.KGo? then (if Small(k.n) then KInt(k.n) else KLong(k.n)) else k
  }

  /** What the reader returns for a leaf: a nil slice without its own tag comes back as nil. */
  function Canon(l: Leaf): Leaf {
    match l
    case Scalar(k) => Scalar(CanonKey(k))
    case NilList => Scalar(KNull)
    case _ => l
  }

  // ----- forgetting the order -----

  function Forget(t: Tree): Value {
    match t
    case TAtom(l) => Atom(l)
    case TList(items) => List(ForgetAll(items))
    case TMap(entries) => Map(ForgetEntries(entries))
  }

  function ForgetAll(ts: seq<Tree>): (r: seq<Value>)
    ensures |r| == |ts| && forall i :: 0 <= i < |ts| ==> r[i] == Forget(ts[i])
  {
    if ts == [] then [] else [Forget(ts[0])] + ForgetAll(ts[1..])
  }

  function EntryValue(e: Entry): Value { Forget(e.tree) }

  /** Later entries win, as repeated assignment to a Go map does. */
  function ForgetEntries(es: seq<Entry>): map<Key, Value> {
    if es == [] then map[]
    else
      map[es[0].key := EntryValue(es[0])] + ForgetEntries(es[1..])
  }

  /** What the reader returns for a value that was written in a certain order: of two entries
      whose keys come back as the same key, the later one wins. */
  function Returned(t: Tree): Value {
    match t
    case TAtom(l) => Atom(Canon(l))
    case TList(items) => List(ReturnedAll(items))
    case TMap(entries) => Map(ReturnedEntries(entries))
  }

  function ReturnedAll(ts: seq<Tree>): (r: seq<Value>)
    ensures |r| == |ts| && forall i :: 0 <= i < |ts| ==> r[i] == Returned(ts[i])
  {
    if ts == [] then [] else [Returned(ts[0])] + ReturnedAll(ts[1..])
  }

  function ReturnedValue(e: Entry): Value { Returned(e.tree) }

  function ReturnedEntries(es: seq<Entry>): map<Key, Value> {
    if es == [] then map[] else map[CanonKey(es[0].key) := ReturnedValue(es[0])] + ReturnedEntries(es[1..])
  }

  // ----- encoding -----

  function KeyTag(k: Key): int32 {
    match k
    case KNull => TAG_NULL
    case KText(_) => TAG_STRING
    case KInt(_) => TAG_INTEGER
    case KShort(_) => TAG_SHORT
    case KLong(_) => TAG_LONG
    case KByte(_) => TAG_BYTE
    case KChar(_) => TAG_CHAR
    case KBool(_) => TAG_BOOLEAN
    case KGo(n) => if Small(n) then TAG_INTEGER else TAG_LONG
  }

  function KeyBody(k: Key): seq<byte> {
    match k
    case KNull => []
    case KText(s) => EncText(s)
    case KInt(i) => EncI32(i)
    case KShort(h) => EncI32(h)
    case KLong(l) => EncI64(l)
    case KByte(y) => EncI32(y)
    case KChar(c) => EncI32(c)
    case KBool(b) => EncBool(b)
    case KGo(n) => if Small(n) then EncI32(n) else EncI64(n)
  }

  function EncKey(k: Key): (r: seq<byte>)
    ensures |r| >= 4
  {
    EncI32(KeyTag(k)) + KeyBody(k)
  }

  function ArrayTag(kind: ElemKind): int32 {
    match kind
    case Ints => TAG_INT_ARRAY
    case Longs => TAG_LONG_ARRAY
    case Shorts => TAG_SHORT_ARRAY
    case Chars => TAG_CHAR_ARRAY
    case Floats => TAG_FLOAT_ARRAY
    case Doubles => TAG_DOUBLE_ARRAY
  }

  function EncElem(kind: ElemKind, x: int): (r: seq<byte>)
    requires InRange(kind, x)
    ensures |r| >= 4
  {
    match kind
    case Ints => EncI32(x)
    case Longs => EncI64(x)
    case Shorts => EncI32(x)
    case Chars => EncI32(x)
    case Floats => LE32(x)
    case Doubles => LE64(x)
  }

  function EncElems(kind: ElemKind, xs: seq<int>): seq<byte>
    requires forall x :: x in xs ==> InRange(kind, x)
  {
    if xs == [] then [] else EncElem(kind, xs[0]) + EncElems(kind, xs[1..])
  }

  function EncTexts(ts: seq<Utf16.text>): seq<byte> {
    if ts == [] then [] else EncText(ts[0]) + EncTexts(ts[1..])
  }

  /** Leaves that can be written: lengths fit int32, array elements fit their kind,
      and a binder is not null (a nil binder is the value nil). */
  predicate LeafOk(l: Leaf) {
    match l
    case Scalar(KText(s)) => TextFits(s)
    case Blob(Some(b)) => |b| <= MAX_INT32
    case Texts(Some(ts)) => |ts| <= MAX_INT32 && forall s :: s in ts ==> TextFits(s)
    case Array(kind, Some(xs)) => |xs| <= MAX_INT32 && forall x :: x in xs ==> InRange(kind, x)
    case Strong(r) => r.Proper()
    case _ => true
  }

  function LeafTag(l: Leaf): int32 {
    match l
    case Scalar(k) => KeyTag(k)
    case Float(_) => TAG_FLOAT
    case Double(_) => TAG_DOUBLE
    case Blob(_) => TAG_BYTE_ARRAY
    case Texts(_) => TAG_STRING_ARRAY
    case Array(kind, _) => ArrayTag(kind)
    case NilMap => TAG_MAP
    case NilList => TAG_NULL
    case Strong(_) => TAG_IBINDER
  }

  function LeafBody(l: Leaf): seq<byte>
    requires LeafOk(l)
  {
    match l
    case Scalar(k) => KeyBody(k)
    case Float(bits) => LE32(bits)
    case Double(bits) => LE64(bits)
    case Blob(None) => EncI32(-1)
    case Blob(Some(b)) => EncRaw(b)
    case Texts(None) => EncI32(-1)
    case Texts(Some(ts)) => EncCount(|ts|) + EncTexts(ts)
    case Array(_, None) => EncI32(-1)
    case Array(kind, Some(xs)) => EncCount(|xs|) + EncElems(kind, xs)
    case NilMap => EncCount(4) + EncI32(-1)
    case NilList => []
    case Strong(r) => EncBinder(r)
  }

  function EncLeaf(l: Leaf): (r: seq<byte>)
    requires LeafOk(l)
    ensures |r| >= 4
  {
    EncI32(LeafTag(l)) + LeafBody(l)
  }

  /** Trees that can be written: every leaf can, and every count fits int32. */
  predicate Writable(t: Tree) {
    match t
    case TAtom(l) => LeafOk(l)
    case TList(items) => |items| <= MAX_INT32 && forall i :: 0 <= i < |items| ==> Writable(items[i])
    case TMap(es) =>
      |es| <= MAX_INT32 && forall i :: 0 <= i < |es| ==> EntryWritable(es[i])
  }

  predicate EntryWritable(e: Entry) { LeafOk(Scalar(e.key)) && Writable(e.tree) }

  predicate AllWritable(ts: seq<Tree>) { forall i :: 0 <= i < |ts| ==> Writable(ts[i]) }

  predicate EntriesWritable(es: seq<Entry>) {
    forall i :: 0 <= i < |es| ==> EntryWritable(es[i])
  }

  function Enc(t: Tree): (r: seq<byte>)
    requires Writable(t)
    ensures |r| >= 4
  {
    match t
    case TAtom(l) => EncLeaf(l)
    case TList(items) => Prefixed(TAG_LIST, EncCount(|items|) + EncAll(items))
    case TMap(es) => Prefixed(TAG_MAP, EncCount(|es|) + EncEntries(es))
  }

  /** Tag, byte length of the body, body. */
  function Prefixed(tag: int32, body: seq<byte>): (r: seq<byte>)
    ensures |r| == 8 + |body|
  {
    EncI32(tag) + (EncCount(|body|) + body)
  }

  function EncAll(ts: seq<Tree>): seq<byte>
    requires AllWritable(ts)
  {
    if ts == [] then [] else Enc(ts[0]) + EncAll(ts[1..])
  }

  function EncEntries(es: seq<Entry>): seq<byte>
    requires EntriesWritable(es)
  {
    if es == [] then [] else EncEntry(es[0]) + EncEntries(es[1..])
  }

  function EncEntry(e: Entry): (r: seq<byte>)
    requires EntryWritable(e)
    ensures |r| >= 8
  {
    EncKey(e.key) + Enc(e.tree)
  }

  /** The object-table rows a tree adds when written at `pos`. */
  function RowsOf(t: Tree, pos: nat): seq<ObjectRef>
    requires Writable(t)
  {
    match t
    case TAtom(Strong(r)) => BinderRows(r, pos + 4)
    case TAtom(_) => []
    case TList(items) => RowsOfAll(items, pos + 12)
    case TMap(es) => RowsOfEntries(es, pos + 12)
  }

  function RowsOfAll(ts: seq<Tree>, pos: nat): seq<ObjectRef>
    requires AllWritable(ts)
  {
    if ts == [] then [] else RowsOf(ts[0], pos) + RowsOfAll(ts[1..], pos + |Enc(ts[0])|)
  }

  function RowsOfEntries(es: seq<Entry>, pos: nat): seq<ObjectRef>
    requires EntriesWritable(es)
  {
    if es == [] then [] else RowsOfEntry(es[0], pos) + RowsOfEntries(es[1..], pos + |EncEntry(es[0])|)
  }

  function RowsOfEntry(e: Entry, pos: nat): seq<ObjectRef>
    requires EntryWritable(e)
  {
    RowsOf(e.tree, pos + |EncKey(e.key)|)
  }

  // -- the rows of a tree are sorted, disjoint and inside its encoding --

  lemma {:induction false} RowsOfWithin(t: Tree, pos: nat)
    requires Writable(t)
    ensures TableWithin(RowsOf(t, pos), pos, pos + |Enc(t)|)
    decreases t
  {
    hide EncKey, EncAll, EncEntries, RowsOfAll, RowsOfEntries, EncI32, EncCount;
    match t
    case TAtom(l) => {}
    case TList(items) =>
      RowsOfAllWithin(items, pos + 12);
      Widen(RowsOfAll(items, pos + 12), pos + 12, pos, pos + |Enc(t)|);
    case TMap(es) =>
      RowsOfEntriesWithin(es, pos + 12);
      Widen(RowsOfEntries(es, pos + 12), pos + 12, pos, pos + |Enc(t)|);
  }

  lemma Widen(rows: seq<ObjectRef>, lo: nat, lo': nat, hi: nat)
    requires lo' <= lo && TableWithin(rows, lo, hi)
    ensures TableWithin(rows, lo', hi)
  {}

  lemma {:induction false} RowsOfAllWithin(ts: seq<Tree>, pos: nat)
    requires AllWritable(ts)
    ensures TableWithin(RowsOfAll(ts, pos), pos, pos + |EncAll(ts)|)
    decreases ts
  {
    hide Enc, RowsOf, Writable;
    if ts != [] {
      var mid := pos + |Enc(ts[0])|;
      RowsOfWithin(ts[0], pos);
      RowsOfAllWithin(ts[1..], mid);
      TableJoin(RowsOf(ts[0], pos), RowsOfAll(ts[1..], mid), pos, mid, mid + |EncAll(ts[1..])|);
    }
  }

  lemma {:induction false} RowsOfEntriesWithin(es: seq<Entry>, pos: nat)
    requires EntriesWritable(es)
    ensures TableWithin(RowsOfEntries(es, pos), pos, pos + |EncEntries(es)|)
    decreases es
  {
    hide EncEntry, RowsOfEntry, EntryWritable;
    if es != [] {
      var mid := pos + |EncEntry(es[0])|;
      RowsOfEntryWithin(es[0], pos);
      RowsOfEntriesWithin(es[1..], mid);
      TableJoin(RowsOfEntry(es[0], pos), RowsOfEntries(es[1..], mid), pos, mid, mid + |EncEntries(es[1..])|);
    }
  }

  lemma {:induction false} RowsOfEntryWithin(e: Entry, pos: nat)
    requires EntryWritable(e)
    ensures TableWithin(RowsOfEntry(e, pos), pos, pos + |EncEntry(e)|)
    decreases e
  {
    hide Enc, RowsOf, EncKey;
    RowsOfWithin(e.tree, pos + |EncKey(e.key)|);
    Widen(RowsOf(e.tree, pos + |EncKey(e.key)|), pos + |EncKey(e.key)|, pos, pos + |EncEntry(e)|);
  }

  // -- and come back from the driver --

  lemma BodyAt(tag: int32, n: nat, body: seq<byte>, b: seq<byte>, pos: nat)
    requires At(b, pos, Prefixed(tag, EncCount(n) + body))
    ensures At(b, pos + 12, body)
  {
    hide At, EncI32, EncCount;
    var rest := EncCount(n) + body;
    AtSplit(b, pos, EncI32(tag), EncCount(|rest|) + rest);
    AtSplit(b, pos + 4, EncCount(|rest|), rest);
    AtSplit(b, pos + 8, EncCount(n), body);
  }

  ghost predicate AllImport(b: seq<byte>, rows: seq<ObjectRef>) { forall o :: o in rows ==> Imports(b, o) }

  lemma {:induction false} RowsImport(t: Tree, b: seq<byte>, pos: nat)
    requires Writable(t) && |b| < 0x1_0000_0000_0000_0000 && At(b, pos, Enc(t))
    ensures AllImport(b, RowsOf(t, pos))
    decreases t
  {
    hide At, Imports, EncI32, EncCount, EncAll, EncEntries, RowsOfAll, RowsOfEntries, LeafTag, EncBinder;
    match t
    case TAtom(l) =>
      if l.Strong? {
        AtSplit(b, pos, EncI32(LeafTag(l)), EncBinder(l.r));
        ParseBinderAt(b, pos + 4, l.r);
      }
    case TList(items) =>
      BodyAt(TAG_LIST, |items|, EncAll(items), b, pos);
      AllRowsImport(items, b, pos + 12);
    case TMap(es) =>
      BodyAt(TAG_MAP, |es|, EncEntries(es), b, pos);
      EntriesRowsImport(es, b, pos + 12);
  }

  lemma {:induction false} AllRowsImport(ts: seq<Tree>, b: seq<byte>, pos: nat)
    requires AllWritable(ts) && |b| < 0x1_0000_0000_0000_0000 && At(b, pos, EncAll(ts))
    ensures AllImport(b, RowsOfAll(ts, pos))
    decreases ts
  {
    hide At, Imports, Enc, RowsOf, Writable;
    if ts != [] {
      AtSplit(b, pos, Enc(ts[0]), EncAll(ts[1..]));
      RowsImport(ts[0], b, pos);
      AllRowsImport(ts[1..], b, pos + |Enc(ts[0])|);
    }
  }

  lemma {:induction false} EntriesRowsImport(es: seq<Entry>, b: seq<byte>, pos: nat)
    requires EntriesWritable(es) && |b| < 0x1_0000_0000_0000_0000 && At(b, pos, EncEntries(es))
    ensures AllImport(b, RowsOfEntries(es, pos))
    decreases es
  {
    hide At, Imports, EncEntry, RowsOfEntry, EntryWritable;
    if es != [] {
      AtSplit(b, pos, EncEntry(es[0]), EncEntries(es[1..]));
      EntryRowsImport(es[0], b, pos);
      EntriesRowsImport(es[1..], b, pos + |EncEntry(es[0])|);
    }
  }

  lemma {:induction false} EntryRowsImport(e: Entry, b: seq<byte>, pos: nat)
    requires EntryWritable(e) && |b| < 0x1_0000_0000_0000_0000 && At(b, pos, EncEntry(e))
    ensures AllImport(b, RowsOfEntry(e, pos))
    decreases e
  {
    hide At, Imports, Enc, RowsOf, EncKey;
    AtSplit(b, pos, EncKey(e.key), Enc(e.tree));
    RowsImport(e.tree, b, pos + |EncKey(e.key)|);
  }

  // ----- decoding -----

  function ReadElem(kind: ElemKind, b: seq<byte>, pos: nat): (r: Read<int>)
    ensures r.Ok? ==> pos + 4 <= r.pos <= |b| && InRange(kind, r.value)
  {
    match kind
    case Ints => (var (v, q) :- ReadI32(b, pos); Ok(v, q))
    case Longs => (var (v, q) :- ReadI64(b, pos); Ok(v, q))
    case Shorts => (var (v, q) :- ReadI32(b, pos); Ok(TruncI16(v), q))
    case Chars => (var (v, q) :- ReadI32(b, pos); Ok(TruncU16(v), q))
    case Floats => (var (v, q) :- ReadU32(b, pos); Ok(v, q))
    case Doubles => (var (v, q) :- ReadI64(b, pos); Ok(ToU64(v), q))
  }

  function ReadElems(kind: ElemKind, b: seq<byte>, pos: nat, n: nat): (r: Read<seq<int>>)
    requires pos <= |b|
    ensures r.Ok? ==> pos <= r.pos <= |b|
    decreases n
  {
    if n == 0 then Ok([], pos)
    else
      var (x, q) :- ReadElem(kind, b, pos);
      var (xs, q2) :- ReadElems(kind, b, q, n - 1);
      Ok([x] + xs, q2)
  }

  function ReadTexts(b: seq<byte>, pos: nat, n: nat): (r: Read<seq<Utf16.text>>)
    requires pos <= |b|
    ensures r.Ok? ==> pos <= r.pos <= |b|
    decreases n
  {
    if n == 0 then Ok([], pos)
    else
      var (s, q) :- ReadText(b, pos);
      var (ts, q2) :- ReadTexts(b, q, n - 1);
      Ok([s] + ts, q2)
  }

  function DecArray(kind: ElemKind, b: seq<byte>, pos: nat): (r: Read<Leaf>)
    ensures r.Ok? ==> pos <= r.pos <= |b|
  {
    var (n, q) :- ReadI32(b, pos);
    if n < 0 then Ok(Array(kind, None), q)
    else
      var (xs, q2) :- ReadElems(kind, b, q, n);
      Ok(Array(kind, Some(xs)), q2)
  }

  /** The body of a value whose tag is neither a list nor a map. */
  function DecLeaf(tag: int32, b: seq<byte>, objs: seq<ObjectRef>, pos: nat): (r: Read<Leaf>)
    requires pos <= |b|
    ensures r.Ok? ==> pos <= r.pos <= |b|
  {
    if tag == TAG_NULL then Ok(Scalar(KNull), pos)
    else if tag == TAG_STRING then (var (s, q) :- ReadText(b, pos); Ok(Scalar(KText(s)), q))
    else if tag == TAG_INTEGER then (var (v, q) :- ReadI32(b, pos); Ok(Scalar(KInt(v)), q))
    else if tag == TAG_SHORT then (var (v, q) :- ReadI32(b, pos); Ok(Scalar(KShort(TruncI16(v))), q))
    else if tag == TAG_LONG then (var (v, q) :- ReadI64(b, pos); Ok(Scalar(KLong(v)), q))
    else if tag == TAG_BYTE then (var (v, q) :- ReadI32(b, pos); Ok(Scalar(KByte(TruncI8(v))), q))
    else if tag == TAG_CHAR then (var (v, q) :- ReadI32(b, pos); Ok(Scalar(KChar(TruncU16(v))), q))
    else if tag == TAG_BOOLEAN then (var (v, q) :- ReadBool(b, pos); Ok(Scalar(KBool(v)), q))
    else if tag == TAG_FLOAT then (var (v, q) :- ReadU32(b, pos); Ok(Float(v), q))
    else if tag == TAG_DOUBLE then (var (v, q) :- ReadI64(b, pos); Ok(Double(ToU64(v)), q))
    else if tag == TAG_BYTE_ARRAY then (var (v, q) :- ReadRaw(b, pos); Ok(Blob(v), q))
    else if tag == TAG_STRING_ARRAY then
      var (n, q) :- ReadI32(b, pos);
      if n < 0 then Ok(Texts(None), q)
      else (var (ts, q2) :- ReadTexts(b, q, n); Ok(Texts(Some(ts)), q2))
    else if tag == TAG_IBINDER then (var (v, q) :- ReadBinder(b, objs, pos); Ok(Strong(v), q))
    else if tag == TAG_INT_ARRAY then DecArray(Ints, b, pos)
    else if tag == TAG_LONG_ARRAY then DecArray(Longs, b, pos)
    else if tag == TAG_SHORT_ARRAY then DecArray(Shorts, b, pos)
    else if tag == TAG_CHAR_ARRAY then DecArray(Chars, b, pos)
    else if tag == TAG_FLOAT_ARRAY then DecArray(Floats, b, pos)
    else if tag == TAG_DOUBLE_ARRAY then DecArray(Doubles, b, pos)
    else Fail // a parcelable needs a typed codec, any other tag is unknown
  }

  /** Moves the cursor to the end a length prefix announced; overrunning it fails, and
      so does an end outside the buffer. */
  function Finish<T>(r: Read<T>, end: nat, size: nat): Read<T> {
    match r
    case Fail => Fail
    case Ok(v, pos) => if pos > end || (pos < end && end > size) then Fail else Ok(v, end)
  }

  /** One value at `pos`. It terminates because every value takes at least four bytes. */
  function Dec(b: seq<byte>, objs: seq<ObjectRef>, pos: nat): (r: Read<Value>)
    requires pos <= |b|
    ensures r.Ok? ==> pos + 4 <= r.pos <= |b|
    decreases |b| - pos, 0
  {
    var (tag, q) :- ReadI32(b, pos);
    if tag == TAG_MAP || tag == TAG_LIST then
      var (size, body) :- ReadI32(b, q);
      if size < 0 then Fail
      else
        var (n, first) :- ReadI32(b, body);
        if n < 0 then Finish(Ok(Atom(if tag == TAG_MAP then NilMap else NilList), first), body + size, |b|)
        else if tag == TAG_MAP then
          var m := DecEntries(b, objs, first, n);
          Finish(if m.Fail? then Fail else Ok(Map(m.value), m.pos), body + size, |b|)
        else
          var vs := DecAll(b, objs, first, n);
          Finish(if vs.Fail? then Fail else Ok(List(vs.value), vs.pos), body + size, |b|)
    else
      var (l, q2) :- DecLeaf(tag, b, objs, q);
      Ok(Atom(l), q2)
  }

  function DecAll(b: seq<byte>, objs: seq<ObjectRef>, pos: nat, n: nat): (r: Read<seq<Value>>)
    requires pos <= |b|
    ensures r.Ok? ==> pos <= r.pos <= |b| && |r.value| == n
    decreases |b| - pos, 1
  {
    if n == 0 then Ok([], pos)
    else
      var (v, q) :- Dec(b, objs, pos);
      var (vs, q2) :- DecAll(b, objs, q, n - 1);
      Ok([v] + vs, q2)
  }

  /** A key that is not one of the hashable scalars counts as a failure. */
  function DecEntries(b: seq<byte>, objs: seq<ObjectRef>, pos: nat, n: nat): (r: Read<map<Key, Value>>)
    requires pos <= |b|
    ensures r.Ok? ==> pos <= r.pos <= |b|
    decreases |b| - pos, 1
  {
    if n == 0 then Ok(map[], pos)
    else
      var (k, q) :- Dec(b, objs, pos);
      var (v, q2) :- Dec(b, objs, q);
      var (rest, q3) :- DecEntries(b, objs, q2, n - 1);
      if k.Atom? && k.leaf.Scalar? then Ok(map[k.leaf.k := v] + rest, q3) else Fail
  }

  // ----- reading what was written -----

  lemma TruncSmall(x: int)
    ensures -0x8000 <= x < 0x8000 ==> TruncI16(x) == x
    ensures -0x80 <= x < 0x80 ==> TruncI8(x) == x
    ensures 0 <= x < 0x1_0000 ==> TruncU16(x) == x
  {}

  lemma ReadU64At(b: seq<byte>, pos: nat, u: uint64)
    requires At(b, pos, LE64(u))
    ensures ReadI64(b, pos) == Ok(ToI64(u), pos + 8)
  {
    Get64LE(u);
  }

  lemma DecKeyBodyAt(k: Key, b: seq<byte>, objs: seq<ObjectRef>, pos: nat)
    requires pos <= |b| && LeafOk(Scalar(k)) && At(b, pos, KeyBody(k))
    ensures DecLeaf(KeyTag(k), b, objs, pos) == Ok(Scalar(CanonKey(k)), pos + |KeyBody(k)|)
  {
    hide At, EncText, ReadText, ReadI32, ReadI64, ReadBool, TruncI16, TruncI8, TruncU16;
    match k
    case KNull =>
    case KText(s) => ReadTextAt(b, pos, s);
    case KInt(i) => ReadI32At(b, pos, i);
    case KShort(h) => ReadI32At(b, pos, h); TruncSmall(h);
    case KLong(l) => ReadI64At(b, pos, l);
    case KByte(y) => ReadI32At(b, pos, y); TruncSmall(y);
    case KChar(c) => ReadI32At(b, pos, c); TruncSmall(c);
    case KBool(v) => ReadBoolAt(b, pos, v);
    case KGo(n) => if Small(n) { ReadI32At(b, pos, n); } else { ReadI64At(b, pos, n); }
  }

  lemma ReadElemAt(kind: ElemKind, x: int, b: seq<byte>, pos: nat)
    requires InRange(kind, x) && At(b, pos, EncElem(kind, x))
    ensures ReadElem(kind, b, pos) == Ok(x, pos + |EncElem(kind, x)|)
  {
    hide At, EncI32, EncI64, LE32, LE64, ReadI32, ReadU32, ReadI64, TruncI16, TruncU16;
    match kind
    case Ints => ReadI32At(b, pos, x);
    case Longs => ReadI64At(b, pos, x);
    case Shorts => ReadI32At(b, pos, x); TruncSmall(x);
    case Chars => ReadI32At(b, pos, x); TruncSmall(x);
    case Floats => ReadU32At(b, pos, x);
    case Doubles => ReadU64At(b, pos, x);
  }

  lemma {:induction false} ReadElemsAt(kind: ElemKind, xs: seq<int>, b: seq<byte>, pos: nat)
    requires pos <= |b| && forall x :: x in xs ==> InRange(kind, x)
    requires At(b, pos, EncElems(kind, xs))
    ensures ReadElems(kind, b, pos, |xs|) == Ok(xs, pos + |EncElems(kind, xs)|)
  {
    hide At, InRange, EncElem, ReadElem;
    if xs != [] {
      AtSplit(b, pos, EncElem(kind, xs[0]), EncElems(kind, xs[1..]));
      ReadElemAt(kind, xs[0], b, pos);
      ReadElemsAt(kind, xs[1..], b, pos + |EncElem(kind, xs[0])|);
      assert xs == [xs[0]] + xs[1..];
    }
  }

  lemma {:induction false} ReadTextsAt(ts: seq<Utf16.text>, b: seq<byte>, pos: nat)
    requires pos <= |b| && forall s :: s in ts ==> TextFits(s)
    requires At(b, pos, EncTexts(ts))
    ensures ReadTexts(b, pos, |ts|) == Ok(ts, pos + |EncTexts(ts)|)
  {
    hide At, TextFits, EncText, ReadText;
    if ts != [] {
      AtSplit(b, pos, EncText(ts[0]), EncTexts(ts[1..]));
      ReadTextAt(b, pos, ts[0]);
      ReadTextsAt(ts[1..], b, pos + |EncText(ts[0])|);
      assert ts == [ts[0]] + ts[1..];
    }
  }

  lemma DecArrayAt(kind: ElemKind, xs: seq<int>, b: seq<byte>, pos: nat)
    requires |xs| <= MAX_INT32 && forall x :: x in xs ==> InRange(kind, x)
    requires At(b, pos, EncCount(|xs|) + EncElems(kind, xs))
    ensures DecArray(kind, b, pos) == Ok(Array(kind, Some(xs)), pos + 4 + |EncElems(kind, xs)|)
  {
    hide At, EncCount, ReadI32, EncElems, ReadElems;
    AtSplit(b, pos, EncCount(|xs|), EncElems(kind, xs));
    ReadCountAt(b, pos, |xs|);
    ReadElemsAt(kind, xs, b, pos + 4);
  }

  lemma DecArrayTag(kind: ElemKind, b: seq<byte>, objs: seq<ObjectRef>, pos: nat)
    requires pos <= |b|
    ensures DecLeaf(ArrayTag(kind), b, objs, pos) == DecArray(kind, b, pos)
  {}

  lemma DecLeafBodyAt(l: Leaf, b: seq<byte>, objs: seq<ObjectRef>, pos: nat)
    requires LeafOk(l) && !l.NilMap?
    requires 4 <= pos <= |b| && At(b, pos, LeafBody(l)) && Held(objs, RowsOf(TAtom(l), pos - 4))
    ensures DecLeaf(LeafTag(l), b, objs, pos) == Ok(Canon(l), pos + |LeafBody(l)|)
  {
    hide At, Held, EncTexts, EncElems, EncRaw, EncBinder, KeyBody, KeyTag, ArrayTag;
    hide ReadI32, ReadU32, ReadI64, ReadTexts, ReadBinder, DecArray;
    match l
    case Scalar(k) => DecKeyBodyAt(k, b, objs, pos);
    case NilList =>
    case Float(bits) => ReadU32At(b, pos, bits);
    case Double(bits) => ReadU64At(b, pos, bits);
    case Blob(None) => ReadI32At(b, pos, -1);
    case Blob(Some(v)) => ReadRawAt(b, pos, v);
    case Texts(None) => ReadI32At(b, pos, -1);
    case Texts(Some(ts)) =>
      AtSplit(b, pos, EncCount(|ts|), EncTexts(ts));
      ReadCountAt(b, pos, |ts|);
      ReadTextsAt(ts, b, pos + 4);
    case Array(kind, None) =>
      DecNilArrayAt(kind, b, pos);
      DecArrayTag(kind, b, objs, pos);
    case Array(kind, Some(xs)) =>
      DecArrayAt(kind, xs, b, pos);
      DecArrayTag(kind, b, objs, pos);
    case Strong(r) => ReadBinderAt(b, objs, pos, r);
  }

  lemma DecNilArrayAt(kind: ElemKind, b: seq<byte>, pos: nat)
    requires At(b, pos, EncI32(-1))
    ensures DecArray(kind, b, pos) == Ok(Array(kind, None), pos + 4)
  {
    ReadI32At(b, pos, -1);
  }

  lemma PlainTag(l: Leaf)
    requires !l.NilMap?
    ensures LeafTag(l) != TAG_MAP && LeafTag(l) != TAG_LIST
  {}

  /** A leaf reads back as its canonical form. */
  lemma DecLeafAt(l: Leaf, b: seq<byte>, objs: seq<ObjectRef>, pos: nat)
    requires LeafOk(l) && At(b, pos, EncLeaf(l)) && Held(objs, RowsOf(TAtom(l), pos))
    ensures Dec(b, objs, pos) == Ok(Atom(Canon(l)), pos + |EncLeaf(l)|)
  {
    hide At, Held, RowsOf, LeafTag, ReadI32, DecLeaf, EncI32, EncCount;
    AtSplit(b, pos, EncI32(LeafTag(l)), LeafBody(l));
    ReadI32At(b, pos, LeafTag(l));
    if l.NilMap? {
      AtSplit(b, pos + 4, EncCount(4), EncI32(-1));
      ReadCountAt(b, pos + 4, 4);
      ReadI32At(b, pos + 8, -1);
      NilMapTag();
    } else {
      hide LeafBody, Canon;
      PlainTag(l);
      DecLeafBodyAt(l, b, objs, pos + 4);
    }
  }

  lemma NilMapTag()
    ensures LeafTag(NilMap) == TAG_MAP
  {}

  /** Every list and map body is short enough for its length prefix, whose cast to
      int32 the writer does not check. */
  predicate Sized(t: Tree)
    requires Writable(t)
  {
    match t
    case TAtom(_) => true
    case TList(items) => AllSized(items) && |EncAll(items)| + 4 <= MAX_INT32
    case TMap(es) => EntriesSized(es) && |EncEntries(es)| + 4 <= MAX_INT32
  }

  predicate AllSized(ts: seq<Tree>)
    requires AllWritable(ts)
  {
    ts == [] || (Sized(ts[0]) && AllSized(ts[1..]))
  }

  predicate EntriesSized(es: seq<Entry>)
    requires EntriesWritable(es)
  {
    es == [] || (EntrySized(es[0]) && EntriesSized(es[1..]))
  }

  predicate EntrySized(e: Entry)
    requires EntryWritable(e)
  {
    Sized(e.tree)
  }

  /** Reading a written value: for every tree, that is for every value and every order
      in which its maps were walked, the reader returns the value in the form it has after
      the trip and stops just past the encoding, whatever surrounds it. */
  lemma {:induction false} DecEnc(t: Tree, b: seq<byte>, objs: seq<ObjectRef>, pos: nat)
    requires Writable(t) && Sized(t)
    requires pos <= |b| && At(b, pos, Enc(t)) && Held(objs, RowsOf(t, pos))
    ensures Dec(b, objs, pos) == Ok(Returned(t), pos + |Enc(t)|)
    decreases t
  {
    hide At, Held, EncI32, EncCount, ReadI32, EncLeaf, DecLeaf, EncAll, EncEntries, DecAll, DecEntries;
    match t
    case TAtom(l) => DecLeafAt(l, b, objs, pos);
    case TList(items) =>
      PrefixAt(TAG_LIST, |items|, EncAll(items), b, pos);
      DecEncAll(items, b, objs, pos + 12);
    case TMap(es) =>
      PrefixAt(TAG_MAP, |es|, EncEntries(es), b, pos);
      DecEncEntries(es, b, objs, pos + 12);
  }

  lemma PrefixAt(tag: int32, n: nat, body: seq<byte>, b: seq<byte>, pos: nat)
    requires n <= MAX_INT32 && |body| + 4 <= MAX_INT32
    requires At(b, pos, Prefixed(tag, EncCount(n) + body))
    ensures ReadI32(b, pos) == Ok(tag, pos + 4)
    ensures ReadI32(b, pos + 4) == Ok(|body| + 4, pos + 8)
    ensures ReadI32(b, pos + 8) == Ok(n, pos + 12)
    ensures At(b, pos + 12, body) && pos + 12 + |body| <= |b|
  {
    var rest := EncCount(n) + body;
    AtSplit(b, pos, EncI32(tag), EncCount(|rest|) + rest);
    AtSplit(b, pos + 4, EncCount(|rest|), rest);
    AtSplit(b, pos + 8, EncCount(n), body);
    hide EncI32, EncCount, ReadI32;
    ReadI32At(b, pos, tag);
    ReadCountAt(b, pos + 4, |rest|);
    ReadCountAt(b, pos + 8, n);
  }

  lemma {:induction false} DecEncAll(ts: seq<Tree>, b: seq<byte>, objs: seq<ObjectRef>, pos: nat)
    requires AllWritable(ts) && AllSized(ts)
    requires pos <= |b| && At(b, pos, EncAll(ts)) && Held(objs, RowsOfAll(ts, pos))
    ensures DecAll(b, objs, pos, |ts|) == Ok(ReturnedAll(ts), pos + |EncAll(ts)|)
    decreases ts
  {
    hide At, Held, Enc, Dec, RowsOf, Sized, Returned;
    if ts != [] {
      var t, rest := ts[0], ts[1..];
      var mid := pos + |Enc(t)|;
      AtSplit(b, pos, Enc(t), EncAll(rest));
      HeldSplit(objs, RowsOf(t, pos), RowsOfAll(rest, mid));
      DecEnc(t, b, objs, pos);
      DecEncAll(rest, b, objs, mid);
    }
  }

  lemma {:induction false} DecEncEntries(es: seq<Entry>, b: seq<byte>, objs: seq<ObjectRef>, pos: nat)
    requires EntriesWritable(es) && EntriesSized(es)
    requires pos <= |b| && At(b, pos, EncEntries(es)) && Held(objs, RowsOfEntries(es, pos))
    ensures DecEntries(b, objs, pos, |es|) == Ok(ReturnedEntries(es), pos + |EncEntries(es)|)
    decreases es
  {
    hide At, Held, EncEntry, Dec, RowsOfEntry, EntrySized, ReturnedValue, EntryWritable;
    if es != [] {
      var e, rest := es[0], es[1..];
      var mid := pos + |EncEntry(e)|;
      AtSplit(b, pos, EncEntry(e), EncEntries(rest));
      HeldSplit(objs, RowsOfEntry(e, pos), RowsOfEntries(rest, mid));
      DecEncEntry(e, b, objs, pos);
      DecEncEntries(rest, b, objs, mid);
    }
  }

  lemma {:induction false} DecEncEntry(e: Entry, b: seq<byte>, objs: seq<ObjectRef>, pos: nat)
    requires EntryWritable(e) && EntrySized(e)
    requires pos <= |b| && At(b, pos, EncEntry(e)) && Held(objs, RowsOfEntry(e, pos))
    ensures Dec(b, objs, pos) == Ok(Atom(Scalar(CanonKey(e.key))), pos + |EncKey(e.key)|)
    ensures pos + |EncKey(e.key)| <= |b|
    ensures Dec(b, objs, pos + |EncKey(e.key)|) == Ok(ReturnedValue(e), pos + |EncEntry(e)|)
    decreases e
  {
    hide Held, Enc, RowsOf, Sized, Returned, Dec;
    AtSplit(b, pos, EncKey(e.key), Enc(e.tree));
    assert EncKey(e.key) == EncLeaf(Scalar(e.key));
    assert Held(objs, RowsOf(TAtom(Scalar(e.key)), pos)) by { NoRows(objs, e.key, pos); }
    DecLeafAt(Scalar(e.key), b, objs, pos);
    DecEnc(e.tree, b, objs, pos + |EncKey(e.key)|);
  }

  lemma NoRows(objs: seq<ObjectRef>, k: Key, pos: nat)
    requires LeafOk(Scalar(k))
    ensures Held(objs, RowsOf(TAtom(Scalar(k)), pos))
  {}

  // ----- what the trip keeps -----

  /** Every map in the tree has each of its keys once: the tree is a walk of its value. */
  predicate IsWalk(t: Tree) {
    match t
    case TAtom(_) => true
    case TList(items) => forall i :: 0 <= i < |items| ==> IsWalk(items[i])
    case TMap(es) => EntriesWalk(es)
  }

  predicate EntriesWalk(es: seq<Entry>) {
    es == [] || (es[0].key !in ForgetEntries(es[1..]) && EntryWalk(es[0]) && EntriesWalk(es[1..]))
  }

  predicate EntryWalk(e: Entry) { IsWalk(e.tree) }

  /** No two keys of a map come back as one, anywhere in the value. */
  predicate KeysApart(v: Value) {
    match v
    case Atom(_) => true
    case List(items) => forall i :: 0 <= i < |items| ==> KeysApart(items[i])
    case Map(m) => NoClash(m.Keys) && forall k :: k in m ==> KeysApart(m[k])
  }

  /** No `int` key beside the int32 or int64 key that it comes back as. */
  predicate NoClash(keys: set<Key>) { forall k :: k in keys && k.KGo? ==> CanonKey(k) !in keys }

  predicate Injective(keys: set<Key>) { forall j, k :: j in keys && k in keys && j != k ==> CanonKey(j) != CanonKey(k) }

  lemma NoClashIff(keys: set<Key>)
    ensures NoClash(keys) <==> Injective(keys)
  {
    if Injective(keys) {
      forall k | k in keys && k.KGo? ensures CanonKey(k) !in keys {
        assert CanonKey(CanonKey(k)) == CanonKey(k);
      }
    }
  }

  /** The same value after the trip: maps have as many entries as before, each under the
      form its key has now. */
  predicate Same(v: Value, r: Value) {
    match v
    case Atom(l) => r == Atom(Canon(l))
    case List(items) => r.List? && |r.items| == |items| && forall i :: 0 <= i < |items| ==> Same(items[i], r.items[i])
    case Map(m) => r.Map? && |r.m| == |m| && forall k :: k in m ==> CanonKey(k) in r.m && Same(m[k], r.m[CanonKey(k)])
  }

  function Image(keys: set<Key>): set<Key> { set k | k in keys :: CanonKey(k) }

  lemma {:induction false} ImageSize(keys: set<Key>)
    ensures |Image(keys)| <= |keys|
    ensures |Image(keys)| == |keys| <==> Injective(keys)
    decreases |keys|
  {
    if keys != {} {
      var k :| k in keys;
      var rest := keys - {k};
      ImageSize(rest);
      assert Image(keys) == Image(rest) + {CanonKey(k)};
      if CanonKey(k) in Image(rest) {
        var j :| j in rest && CanonKey(j) == CanonKey(k);
        assert Image(keys) == Image(rest);
        assert j in keys && k in keys && j != k;
      } else {
        forall i, j | i in keys && j in keys && i != j && Injective(rest) ensures CanonKey(i) != CanonKey(j) {
          if i == k { assert CanonKey(j) in Image(rest); }
          if j == k { assert CanonKey(i) in Image(rest); }
        }
      }
    }
  }

  /** The keys of a walk, before and after the trip. */
  lemma {:induction false} WalkKeys(es: seq<Entry>)
    ensures ReturnedEntries(es).Keys == Image(ForgetEntries(es).Keys)
  {
    hide CanonKey, EntryValue, ReturnedValue;
    if es != [] {
      WalkKeys(es[1..]);
      assert ForgetEntries(es).Keys == {es[0].key} + ForgetEntries(es[1..]).Keys;
    }
  }

  /** In a walk whose keys stay apart every entry is found under its own key. */
  lemma {:induction false} EntryKept(es: seq<Entry>, i: nat)
    requires EntriesWalk(es) && Injective(ForgetEntries(es).Keys) && i < |es|
    ensures es[i].key in ForgetEntries(es) && ForgetEntries(es)[es[i].key] == EntryValue(es[i])
    ensures CanonKey(es[i].key) in ReturnedEntries(es)
      && ReturnedEntries(es)[CanonKey(es[i].key)] == ReturnedValue(es[i])
    ensures EntryWalk(es[i])
  {
    hide CanonKey, EntryValue, ReturnedValue, EntryWalk;
    assert ForgetEntries(es).Keys == {es[0].key} + ForgetEntries(es[1..]).Keys;
    if i == 0 {
      WalkKeys(es[1..]);
    } else {
      EntryKept(es[1..], i - 1);
    }
  }

  lemma {:induction false} EntryOf(es: seq<Entry>, k: Key) returns (i: nat)
    requires k in ForgetEntries(es)
    ensures i < |es| && es[i].key == k
  {
    if es[0].key == k {
      i := 0;
    } else {
      i := EntryOf(es[1..], k);
      i := i + 1;
    }
  }

  /** The trip keeps a value if and only if none of its maps has an `int` key beside the int32
      or int64 key that it comes back as. */
  lemma {:induction false} KeptIff(t: Tree)
    requires IsWalk(t)
    ensures Same(Forget(t), Returned(t)) <==> KeysApart(Forget(t))
    decreases t
  {
    match t
    case TAtom(_) =>
    case TList(items) =>
      forall i | 0 <= i < |items| ensures Same(Forget(items[i]), Returned(items[i])) <==> KeysApart(Forget(items[i])) {
        KeptIff(items[i]);
      }
      ListKept(items);
    case TMap(es) =>
      WalkKeys(es);
      ImageSize(ForgetEntries(es).Keys);
      MapSizes(es);
      NoClashIff(ForgetEntries(es).Keys);
      if Injective(ForgetEntries(es).Keys) {
        forall i | 0 <= i < |es|
          ensures Same(EntryValue(es[i]), ReturnedValue(es[i])) <==> KeysApart(EntryValue(es[i]))
        {
          EntryKept(es, i);
          EntryKeptIff(es[i]);
        }
        MapKept(es);
      }
  }

  lemma {:induction false} EntryKeptIff(e: Entry)
    requires EntryWalk(e)
    ensures Same(EntryValue(e), ReturnedValue(e)) <==> KeysApart(EntryValue(e))
    decreases e
  {
    KeptIff(e.tree);
  }

  lemma ListKept(items: seq<Tree>)
    requires forall i :: 0 <= i < |items| ==>
      (Same(Forget(items[i]), Returned(items[i])) <==> KeysApart(Forget(items[i])))
    ensures Same(List(ForgetAll(items)), List(ReturnedAll(items))) <==> KeysApart(List(ForgetAll(items)))
  {
    hide Forget, Returned, ForgetAll, ReturnedAll;
    var vs, rs := ForgetAll(items), ReturnedAll(items);
    assert forall i :: 0 <= i < |vs| ==> (Same(vs[i], rs[i]) <==> KeysApart(vs[i]));
    ListIff(vs, rs);
  }

  lemma ListIff(vs: seq<Value>, rs: seq<Value>)
    requires |vs| == |rs| && forall i :: 0 <= i < |vs| ==> (Same(vs[i], rs[i]) <==> KeysApart(vs[i]))
    ensures Same(List(vs), List(rs)) <==> KeysApart(List(vs))
  {
    hide NoClash, Canon;
  }

  lemma MapSizes(es: seq<Entry>)
    ensures |ForgetEntries(es)| == |ForgetEntries(es).Keys| && |ReturnedEntries(es)| == |ReturnedEntries(es).Keys|
  {
  }

  lemma MapKept(es: seq<Entry>)
    requires EntriesWalk(es) && Injective(ForgetEntries(es).Keys) && |ReturnedEntries(es)| == |ForgetEntries(es)|
    requires forall i :: 0 <= i < |es| ==>
      (Same(EntryValue(es[i]), ReturnedValue(es[i])) <==> KeysApart(EntryValue(es[i])))
    ensures Same(Map(ForgetEntries(es)), Map(ReturnedEntries(es))) <==> KeysApart(Map(ForgetEntries(es)))
  {
    hide CanonKey, EntryValue, ReturnedValue, ForgetEntries, ReturnedEntries, EntriesWalk, NoClash, Injective;
    NoClashIff(ForgetEntries(es).Keys);
    var m, r := ForgetEntries(es), ReturnedEntries(es);
    forall k | k in m ensures CanonKey(k) in r && (Same(m[k], r[CanonKey(k)]) <==> KeysApart(m[k])) {
      var i := EntryOf(es, k);
      EntryKept(es, i);
    }
  }

  // -- when keys clash --

  lemma TwoEntries(a: Entry, c: Entry)
    ensures ForgetEntries([a, c]) == map[a.key := EntryValue(a)] + map[c.key := EntryValue(c)]
    ensures ReturnedEntries([a, c])
      == map[CanonKey(a.key) := ReturnedValue(a)] + map[CanonKey(c.key) := ReturnedValue(c)]
  {
    assert [a, c][1..] == [c] && [c][1..] == [];
    assert ForgetEntries([c]) == map[c.key := EntryValue(c)] + ForgetEntries([]);
    assert ReturnedEntries([c]) == map[CanonKey(c.key) := ReturnedValue(c)] + ReturnedEntries([]);
  }

  /** An `int` and an int32 with the same number: which value the reader returns depends on
      the order in which the map was walked, and the other one is lost. */
  lemma ClashLosesOne(x: Leaf, y: Leaf)
    requires Canon(x) != Canon(y)
    ensures var a, c := Entry(KGo(1), TAtom(x)), Entry(KInt(1), TAtom(y));
            ForgetEntries([a, c]) == ForgetEntries([c, a])
            && ReturnedEntries([a, c]) == map[KInt(1) := Atom(Canon(y))]
            && ReturnedEntries([c, a]) == map[KInt(1) := Atom(Canon(x))]
            && ReturnedEntries([a, c]) != ReturnedEntries([c, a])
  {
    hide ForgetEntries, ReturnedEntries, Canon;
    var a, c := Entry(KGo(1), TAtom(x)), Entry(KInt(1), TAtom(y));
    TwoEntries(a, c);
    TwoEntries(c, a);
    assert ReturnedEntries([a, c])[KInt(1)] == Atom(Canon(y));
    assert ReturnedEntries([c, a])[KInt(1)] == Atom(Canon(x));
  }

  /** Where the cursor stands after any successful read of any buffer: at least four
      bytes on, inside the buffer, and for a list or a map exactly where its length
      prefix says, however much of the body the items took. */
  lemma DecCursor(b: seq<byte>, objs: seq<ObjectRef>, pos: nat)
    requires pos <= |b| && Dec(b, objs, pos).Ok?
    ensures var r := Dec(b, objs, pos);
            pos + 4 <= r.pos <= |b|
            && (ReadI32(b, pos).value in {TAG_MAP, TAG_LIST} ==>
                  ReadI32(b, pos + 4).Ok? && r.pos == pos + 8 + ReadI32(b, pos + 4).value)
  {
    hide ReadI32, DecLeaf, DecAll, DecEntries;
  }
}
