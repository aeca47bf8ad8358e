/** Binder and file-descriptor objects embedded in a parcel: their flat encoding, the
    object table beside the bytes, and the import of both from the kernel driver. */
module Objects {
  import opened Bytes
  import opened Common
  import opened Wire
  import Utf16

  const FLAT_SIZE := 24
  const BINDER_WIRE_SIZE := 28
  const TYPE_BINDER: uint32 := 0x7362_2A85
  const TYPE_WEAK_BINDER: uint32 := 0x7762_2A85
  const TYPE_HANDLE: uint32 := 0x7368_2A85
  const TYPE_WEAK_HANDLE: uint32 := 0x7768_2A85
  const TYPE_FD: uint32 := 0x6664_2A85
  const LOCAL_FLAGS: uint32 := 0x113 // accepts-fds flag and scheduling bits

  datatype ObjectKind = NullBinder | StrongBinder | WeakBinder | FileDescriptor

  /** One row of the object table. */
  datatype ObjectRef = ObjectRef(kind: ObjectKind, offset: nat, length: nat, handle: uint32, stability: int32)

  /** What a strong binder resolves to: nothing, a remote handle or a local node.
      A local node is written with its identifier as both pointer and cookie. */
  datatype BinderRef =
    | Null
    | Remote(handle: uint32, stability: int32)
    | Local(node: uint64, stability: int32)
  {
    predicate Proper() { Remote? || (Local? && node != 0) }
  }

  // ----- encodings -----

  /** The bytes of a flat object that a write fills in. */
  function Head(r: BinderRef): (e: seq<byte>)
    ensures 4 <= |e| <= FLAT_SIZE
  {
    match r
    case Null => LE32(TYPE_BINDER)
    case Remote(h, _) => LE32(TYPE_HANDLE) + LE32(0) + LE32(h)
    case Local(n, _) => LE32(TYPE_BINDER) + LE32(LOCAL_FLAGS) + LE64(n) + LE64(n)
  }

  /** The whole object as it stands in a fresh buffer. */
  function FlatBinder(r: BinderRef): (e: seq<byte>)
    ensures |e| == FLAT_SIZE
  {
    Head(r) + Zeros(FLAT_SIZE - |Head(r)|)
  }

  function Label(r: BinderRef): int32 { if r.Null? then 0 else r.stability }

  function EncBinder(r: BinderRef): (e: seq<byte>)
    ensures |e| == BINDER_WIRE_SIZE
  {
    FlatBinder(r) + EncI32(Label(r))
  }

  function FdHead(fd: uint32): (e: seq<byte>)
    ensures |e| == 12
  {
    LE32(TYPE_FD) + LE32(0) + LE32(fd)
  }

  function EncFd(fd: uint32): (e: seq<byte>)
    ensures |e| == FLAT_SIZE
  {
    FdHead(fd) + Zeros(12)
  }

  /** The rows a write at `pos` adds to the table: a null binder adds none. */
  function BinderRows(r: BinderRef, pos: nat): seq<ObjectRef> {
    match r
    case Null => []
    case Remote(h, s) => [ObjectRef(StrongBinder, pos, BINDER_WIRE_SIZE, h, s)]
    case Local(_, s) => [ObjectRef(StrongBinder, pos, BINDER_WIRE_SIZE, 0, s)]
  }

  function FdRows(fd: uint32, pos: nat): seq<ObjectRef> {
    [ObjectRef(FileDescriptor, pos, FLAT_SIZE, fd, 0)]
  }

  // ----- reads -----

  /** The first row at an offset, as the linear search of the table finds it. */
  function ObjectAt(objs: seq<ObjectRef>, offset: nat): (r: Option<ObjectRef>)
    ensures r.Some? ==> r.value in objs && r.value.offset == offset
    ensures r.None? ==> forall o :: o in objs ==> o.offset != offset
  {
    if objs == [] then None
    else if objs[0].offset == offset then Some(objs[0])
    else ObjectAt(objs[1..], offset)
  }

  predicate IsNullBlock(blk: seq<byte>)
    requires |blk| == FLAT_SIZE
  {
    Get32(blk[..4]) in {TYPE_BINDER, TYPE_WEAK_BINDER} && Get64(blk[8..16]) == 0 && Get64(blk[16..24]) == 0
  }

  function ReadBinder(b: seq<byte>, objs: seq<ObjectRef>, pos: nat): (r: Read<BinderRef>)
    ensures r.Ok? ==> r.pos == pos + BINDER_WIRE_SIZE <= |b|
  {
    var (blk, q) :- ReadBlock(b, pos, FLAT_SIZE);
    var typ := Get32(blk[..4]);
    if typ == TYPE_BINDER && IsNullBlock(blk) then
      var (_, q2) :- ReadI32(b, q);
      Ok(Null, q2)
    else if typ != TYPE_BINDER && typ != TYPE_HANDLE then Fail
    else
      match ObjectAt(objs, pos)
      case None => Fail
      case Some(ref) =>
        if ref.kind != StrongBinder then Fail
        else
          var (s, q2) :- ReadI32(b, q);
          Ok(if typ == TYPE_HANDLE then Remote(Get32(blk[8..12]), s) else Local(Get64(blk[16..24]), s), q2)
  }

  function ReadFd(b: seq<byte>, objs: seq<ObjectRef>, pos: nat): (r: Read<int32>)
    ensures r.Ok? ==> r.pos == pos + FLAT_SIZE <= |b|
  {
    var (blk, q) :- ReadBlock(b, pos, FLAT_SIZE);
    if Get32(blk[..4]) != TYPE_FD then Fail
    else
      match ObjectAt(objs, pos)
      case None => Fail
      case Some(ref) => if ref.kind != FileDescriptor then Fail else Ok(ToI32(Get32(blk[8..12])), q)
  }

  /** Every row of `rows` is found in `objs` at its offset with its kind: all that
      the readers ask of the table. */
  ghost predicate Held(objs: seq<ObjectRef>, rows: seq<ObjectRef>) {
    forall o :: o in rows ==>
      ObjectAt(objs, o.offset).Some? && ObjectAt(objs, o.offset).value.kind == o.kind
  }

  lemma HeldSplit(objs: seq<ObjectRef>, r: seq<ObjectRef>, s: seq<ObjectRef>)
    ensures Held(objs, r + s) <==> Held(objs, r) && Held(objs, s)
  {}

  lemma FlatFields(r: BinderRef)
    requires r.Proper()
    ensures var f := FlatBinder(r);
            Get32(f[..4]) == (if r.Remote? then TYPE_HANDLE else TYPE_BINDER)
            && (r.Remote? ==> Get32(f[8..12]) == r.handle)
            && (r.Local? ==> Get64(f[16..24]) == r.node && !IsNullBlock(f))
  {
    var f := FlatBinder(r);
    if r.Remote? {
      assert f[..4] == LE32(TYPE_HANDLE) && f[8..12] == LE32(r.handle);
      Get32LE(TYPE_HANDLE);
      Get32LE(r.handle);
    } else {
      assert f[..4] == LE32(TYPE_BINDER) && f[16..24] == LE64(r.node);
      Get32LE(TYPE_BINDER);
      Get64LE(r.node);
    }
  }

  lemma NullFields()
    ensures IsNullBlock(FlatBinder(Null)) && Get32(FlatBinder(Null)[..4]) == TYPE_BINDER
  {
    var f := FlatBinder(Null);
    assert f[..4] == LE32(TYPE_BINDER);
    Get32LE(TYPE_BINDER);
    assert f[8..16] == LE64(0) && f[16..24] == LE64(0);
    Get64LE(0);
  }

  /** A strong binder reads back as itself: handle, node and stability label. */
  lemma ReadBinderAt(b: seq<byte>, objs: seq<ObjectRef>, pos: nat, r: BinderRef)
    requires r.Null? || r.Proper()
    requires At(b, pos, EncBinder(r))
    requires Held(objs, BinderRows(r, pos))
    ensures ReadBinder(b, objs, pos) == Ok(r, pos + BINDER_WIRE_SIZE)
  {
    AtSplit(b, pos, FlatBinder(r), EncI32(Label(r)));
    ReadI32At(b, pos + FLAT_SIZE, Label(r));
    if r.Null? {
      NullFields();
    } else {
      FlatFields(r);
      assert BinderRows(r, pos)[0] in BinderRows(r, pos);
    }
  }

  lemma FdFields(fd: uint32)
    ensures Get32(EncFd(fd)[..4]) == TYPE_FD && Get32(EncFd(fd)[8..12]) == fd
  {
    assert EncFd(fd)[..4] == LE32(TYPE_FD) && EncFd(fd)[8..12] == LE32(fd);
    Get32LE(TYPE_FD);
    Get32LE(fd);
  }

  lemma ReadFdAt(b: seq<byte>, objs: seq<ObjectRef>, pos: nat, fd: uint32)
    requires fd <= MAX_INT32
    requires At(b, pos, EncFd(fd))
    requires Held(objs, FdRows(fd, pos))
    ensures ReadFd(b, objs, pos) == Ok(fd, pos + FLAT_SIZE)
  {
    FdFields(fd);
    assert FdRows(fd, pos)[0] in FdRows(fd, pos);
  }

  // ----- whole parcels -----

  /** One thing a caller appends to a parcel. */
  datatype Item = Int(i: int32) | Long(l: int64) | Str(s: Utf16.text) | Binder(r: BinderRef) | Fd(fd: uint32)
  {
    predicate Proper() {
      match this
      case Str(s) => TextFits(s)
      case Binder(r) => r.Proper()
      case Fd(fd) => fd <= MAX_INT32
      case _ => true
    }
  }

  function EncItem(it: Item): seq<byte> {
    match it
    case Int(i) => EncI32(i)
    case Long(l) => EncI64(l)
    case Str(s) => EncText(s)
    case Binder(r) => EncBinder(r)
    case Fd(fd) => EncFd(fd)
  }

  function ItemRows(it: Item, pos: nat): seq<ObjectRef> {
    match it
    case Binder(r) => BinderRows(r, pos)
    case Fd(fd) => FdRows(fd, pos)
    case _ => []
  }

  function EncItems(items: seq<Item>): seq<byte> {
    if items == [] then [] else EncItem(items[0]) + EncItems(items[1..])
  }

  function Rows(items: seq<Item>, pos: nat): seq<ObjectRef> {
    if items == [] then [] else ItemRows(items[0], pos) + Rows(items[1..], pos + |EncItem(items[0])|)
  }

  /** The object table is sorted by offset, its objects do not overlap, and all of
      them lie within the bytes from `lo` to `hi`. */
  ghost predicate TableWithin(objs: seq<ObjectRef>, lo: nat, hi: nat) {
    (forall i :: 0 <= i < |objs| ==>
       lo <= objs[i].offset && objs[i].offset + objs[i].length <= hi && objs[i].length > 0)
    && (forall i, j :: 0 <= i < j < |objs| ==> objs[i].offset + objs[i].length <= objs[j].offset)
  }

  lemma TableJoin(r: seq<ObjectRef>, s: seq<ObjectRef>, lo: nat, mid: nat, hi: nat)
    requires lo <= mid <= hi && TableWithin(r, lo, mid) && TableWithin(s, mid, hi)
    ensures TableWithin(r + s, lo, hi)
  {
    forall i, j | 0 <= i < j < |r + s| ensures (r + s)[i].offset + (r + s)[i].length <= (r + s)[j].offset {
      if i < |r| <= j {
        assert (r + s)[j] == s[j - |r|];
      }
    }
  }

  lemma ItemRowsWithin(it: Item, pos: nat)
    ensures TableWithin(ItemRows(it, pos), pos, pos + |EncItem(it)|)
  {}

  /** Appending any sequence of scalars, strings, binders and descriptors keeps the
      table sorted, disjoint and in bounds. */
  lemma {:induction false} RowsWithin(items: seq<Item>, pos: nat)
    ensures TableWithin(Rows(items, pos), pos, pos + |EncItems(items)|)
    decreases items
  {
    hide EncItem, ItemRows;
    if items != [] {
      var mid := pos + |EncItem(items[0])|;
      ItemRowsWithin(items[0], pos);
      RowsWithin(items[1..], mid);
      TableJoin(ItemRows(items[0], pos), Rows(items[1..], mid), pos, mid, mid + |EncItems(items[1..])|);
    }
  }

  /** In a sorted table the search by offset finds the row that was written there. */
  lemma {:induction false} TableHolds(objs: seq<ObjectRef>, lo: nat, hi: nat)
    requires TableWithin(objs, lo, hi)
    ensures Held(objs, objs)
    ensures forall o :: o in objs ==> ObjectAt(objs, o.offset) == Some(o)
  {
    forall o | o in objs ensures ObjectAt(objs, o.offset) == Some(o) {
      var f := ObjectAt(objs, o.offset).value;
      var i :| 0 <= i < |objs| && objs[i] == o;
      var j :| 0 <= j < |objs| && objs[j] == f;
      assert i == j;
    }
  }

  lemma HeldWithin(pre: seq<ObjectRef>, rows: seq<ObjectRef>, post: seq<ObjectRef>, hi: nat)
    requires TableWithin(pre + rows + post, 0, hi)
    ensures Held(pre + rows + post, rows)
  {
    hide TableWithin, ObjectAt;
    TableHolds(pre + rows + post, 0, hi);
  }

  // ----- export to the driver and import from it -----

  datatype Parsed = BadObject | Parsed(kind: ObjectKind, offset: nat, handle: uint32)

  /** `parseTransactionObject`: the flat object at an offset of a received payload. */
  function ParseObject(payload: seq<byte>, offset: uint64): Parsed {
    if offset + FLAT_SIZE > |payload| then BadObject
    else
      var typ := Get32(payload[offset..offset + 4]);
      var handle := Get32(payload[offset + 8..offset + 12]);
      if typ == TYPE_BINDER || typ == TYPE_HANDLE then Parsed(StrongBinder, offset, handle)
      else if typ == TYPE_WEAK_BINDER || typ == TYPE_WEAK_HANDLE then Parsed(WeakBinder, offset, handle)
      else if typ == TYPE_FD then Parsed(FileDescriptor, offset, handle)
      else BadObject
  }

  /** The row `SetWireData` stores for a parsed object. */
  function ImportRow(p: Parsed): ObjectRef
    requires p.Parsed?
  {
    ObjectRef(p.kind, p.offset, if p.kind == FileDescriptor then FLAT_SIZE else BINDER_WIRE_SIZE, p.handle, 0)
  }

  /** The loop over the offset array of a received transaction. */
  method ParseObjects(payload: seq<byte>, offsets: seq<uint64>) returns (ok: bool, objs: seq<ObjectRef>)
    ensures ok <==> forall i :: 0 <= i < |offsets| ==> ParseObject(payload, offsets[i]).Parsed?
    ensures ok ==> objs == Import(payload, offsets)
  {
    objs := [];
    for i := 0 to |offsets|
      invariant forall k :: 0 <= k < i ==> ParseObject(payload, offsets[k]).Parsed?
      invariant objs == Import(payload, offsets[..i])
    {
      var p := ParseObject(payload, offsets[i]);
      if p.BadObject? {
        return false, [];
      }
      assert offsets[..i + 1][..i] == offsets[..i];
      objs := objs + [ImportRow(p)];
    }
    assert offsets[..|offsets|] == offsets;
    return true, objs;
  }

  function Import(payload: seq<byte>, offsets: seq<uint64>): (objs: seq<ObjectRef>)
    requires forall i :: 0 <= i < |offsets| ==> ParseObject(payload, offsets[i]).Parsed?
    ensures |objs| == |offsets|
    ensures forall i :: 0 <= i < |offsets| ==> objs[i] == ImportRow(ParseObject(payload, offsets[i]))
  {
    if offsets == [] then []
    else Import(payload, offsets[..|offsets| - 1]) + [ImportRow(ParseObject(payload, offsets[|offsets| - 1]))]
  }

  /** `KernelWireData` exports the offsets of the table. */
  function Offsets(objs: seq<ObjectRef>): (r: seq<nat>)
    ensures |r| == |objs| && forall i :: 0 <= i < |objs| ==> r[i] == objs[i].offset
  {
    seq(|objs|, i requires 0 <= i < |objs| => objs[i].offset)
  }

  /** The payload holds, at the row's offset, an object that imports as the row. Only
      the row of a local node, which has no handle, comes back with another handle. */
  ghost predicate Imports(b: seq<byte>, o: ObjectRef) {
    o.offset < |b| < 0x1_0000_0000_0000_0000
    && var p := ParseObject(b, o.offset);
       p.Parsed? && ImportRow(p).(handle := o.handle, stability := o.stability) == o
       && (o.handle != 0 || o.kind.FileDescriptor? ==> p.handle == o.handle)
  }

  lemma ParseBinderAt(b: seq<byte>, pos: nat, r: BinderRef)
    requires |b| < 0x1_0000_0000_0000_0000
    requires r.Proper() && At(b, pos, EncBinder(r))
    ensures Imports(b, BinderRows(r, pos)[0])
  {
    hide FlatBinder, At;
    AtSplit(b, pos, FlatBinder(r), EncI32(Label(r)));
    AtSub(b, pos, FlatBinder(r), 0, 4);
    AtSub(b, pos, FlatBinder(r), 8, 12);
    FlatFields(r);
  }

  lemma ParseFdAt(b: seq<byte>, pos: nat, fd: uint32)
    requires |b| < 0x1_0000_0000_0000_0000
    requires At(b, pos, EncFd(fd))
    ensures Imports(b, FdRows(fd, pos)[0])
  {
    hide EncFd;
    AtSub(b, pos, EncFd(fd), 0, 4);
    AtSub(b, pos, EncFd(fd), 8, 12);
    FdFields(fd);
  }

  lemma ParseAt(b: seq<byte>, pos: nat, it: Item)
    requires |b| < 0x1_0000_0000_0000_0000
    requires it.Proper() && At(b, pos, EncItem(it))
    ensures forall o :: o in ItemRows(it, pos) ==> Imports(b, o)
  {
    hide Imports, At;
    match it
    case Binder(r) => ParseBinderAt(b, pos, r);
    case Fd(fd) => ParseFdAt(b, pos, fd);
    case _ =>
  }

  /** A table that came back from the driver agrees row by row with the table that was
      sent on kind, offset and length, and on every handle. */
  ghost predicate SameShape(objs: seq<ObjectRef>, rows: seq<ObjectRef>) {
    |objs| == |rows| &&
    forall i :: 0 <= i < |rows| ==>
      objs[i].kind == rows[i].kind && objs[i].offset == rows[i].offset && objs[i].length == rows[i].length
      && (rows[i].handle != 0 || rows[i].kind.FileDescriptor? ==> objs[i].handle == rows[i].handle)
  }

  lemma {:induction false} ParseAllAt(b: seq<byte>, pos: nat, items: seq<Item>)
    requires |b| < 0x1_0000_0000_0000_0000
    requires forall it :: it in items ==> it.Proper()
    requires At(b, pos, EncItems(items))
    ensures forall o :: o in Rows(items, pos) ==> Imports(b, o)
    decreases items
  {
    hide EncItem, ItemRows, At, Imports;
    if items != [] {
      var it, rest := items[0], items[1..];
      var mid := pos + |EncItem(it)|;
      AtSplit(b, pos, EncItem(it), EncItems(rest));
      ParseAllAt(b, mid, rest);
      ParseAt(b, pos, it);
    }
  }

  /** A table of the same shape finds every row of a sorted table. */
  lemma SameShapeHolds(objs: seq<ObjectRef>, rows: seq<ObjectRef>, hi: nat)
    requires SameShape(objs, rows) && TableWithin(rows, 0, hi)
    ensures Held(objs, rows)
  {
    assert TableWithin(objs, 0, hi);
    TableHolds(objs, 0, hi);
    hide ObjectAt;
    forall o | o in rows ensures ObjectAt(objs, o.offset).Some? && ObjectAt(objs, o.offset).value.kind == o.kind {
      var i :| 0 <= i < |rows| && rows[i] == o;
      assert objs[i] in objs && objs[i].offset == o.offset;
    }
  }

  lemma ImportRows(b: seq<byte>, rows: seq<ObjectRef>)
    requires forall o :: o in rows ==> Imports(b, o)
    requires TableWithin(rows, 0, |b|)
    ensures var offsets := Offsets(rows);
            (forall i :: 0 <= i < |offsets| ==>
               offsets[i] < 0x1_0000_0000_0000_0000 && ParseObject(b, offsets[i]).Parsed?)
            && SameShape(Import(b, offsets), rows)
            && Held(Import(b, offsets), rows)
  {
    hide ParseObject, TableWithin, Held, Import;
    assert forall i :: 0 <= i < |rows| ==> Imports(b, rows[i]);
    SameShapeHolds(Import(b, Offsets(rows)), rows, |b|);
  }

  /** Export and import: the offsets of the table, parsed again from the payload, give
      a table of the same kinds, offsets and lengths, in which every row is found. */
  lemma ExportImport(items: seq<Item>)
    requires |EncItems(items)| < 0x1_0000_0000_0000_0000
    requires forall it :: it in items ==> it.Proper()
    ensures var b, rows := EncItems(items), Rows(items, 0);
            var offsets := Offsets(rows);
            (forall i :: 0 <= i < |offsets| ==>
               offsets[i] < 0x1_0000_0000_0000_0000 && ParseObject(b, offsets[i]).Parsed?)
            && SameShape(Import(b, offsets), rows)
            && Held(Import(b, offsets), rows)
  {
    hide EncItems, Rows, Imports, ParseObject, TableWithin, Held, SameShape, Import;
    var b, rows := EncItems(items), Rows(items, 0);
    ParseAllAt(b, 0, items);
    RowsWithin(items, 0);
    ImportRows(b, rows);
  }

  /** Reading with the readers that mirror the writes. */
  function ReadItem(like: Item, b: seq<byte>, objs: seq<ObjectRef>, pos: nat): Read<Item> {
    match like
    case Int(_) => (var (v, q) :- ReadI32(b, pos); Ok(Int(v), q))
    case Long(_) => (var (v, q) :- ReadI64(b, pos); Ok(Long(v), q))
    case Str(_) => (var (v, q) :- ReadText(b, pos); Ok(Str(v), q))
    case Binder(_) => (var (v, q) :- ReadBinder(b, objs, pos); Ok(Binder(v), q))
    case Fd(_) => (var (v, q) :- ReadFd(b, objs, pos); if v < 0 then Fail else Ok(Fd(v), q))
  }

  function ReadItems(like: seq<Item>, b: seq<byte>, objs: seq<ObjectRef>, pos: nat): Read<seq<Item>> {
    if like == [] then Ok([], pos)
    else
      var (it, q) :- ReadItem(like[0], b, objs, pos);
      var (rest, q2) :- ReadItems(like[1..], b, objs, q);
      Ok([it] + rest, q2)
  }

  lemma ReadItemAt(it: Item, b: seq<byte>, objs: seq<ObjectRef>, pos: nat)
    requires it.Proper() && At(b, pos, EncItem(it)) && Held(objs, ItemRows(it, pos))
    ensures ReadItem(it, b, objs, pos) == Ok(it, pos + |EncItem(it)|)
  {
    match it
    case Int(i) => ReadI32At(b, pos, i);
    case Long(l) => ReadI64At(b, pos, l);
    case Str(s) => ReadTextAt(b, pos, s);
    case Binder(r) => ReadBinderAt(b, objs, pos, r);
    case Fd(fd) => ReadFdAt(b, objs, pos, fd);
  }

  lemma {:induction false} ReadItemsAt(items: seq<Item>, b: seq<byte>, objs: seq<ObjectRef>, pos: nat)
    requires forall it :: it in items ==> it.Proper()
    requires At(b, pos, EncItems(items)) && Held(objs, Rows(items, pos))
    ensures ReadItems(items, b, objs, pos) == Ok(items, pos + |EncItems(items)|)
  {
    hide EncItem, ReadItem, ItemRows, At, Held;
    if items != [] {
      var it, rest := items[0], items[1..];
      var mid := pos + |EncItem(it)|;
      AtSplit(b, pos, EncItem(it), EncItems(rest));
      HeldSplit(objs, ItemRows(it, pos), Rows(rest, mid));
      ReadItemAt(it, b, objs, pos);
      ReadItemsAt(rest, b, objs, mid);
      assert items == [it] + rest;
    }
  }

  /** The whole trip: append, export through the driver format, import, read. Every
      handle, node, stability label and descriptor comes back. */
  lemma DriverRoundTrip(items: seq<Item>)
    requires |EncItems(items)| < 0x1_0000_0000_0000_0000
    requires forall it :: it in items ==> it.Proper()
    ensures var b, offsets := EncItems(items), Offsets(Rows(items, 0));
            (forall i :: 0 <= i < |offsets| ==>
               offsets[i] < 0x1_0000_0000_0000_0000 && ParseObject(b, offsets[i]).Parsed?)
            && ReadItems(items, b, Import(b, offsets), 0) == Ok(items, |b|)
  {
    hide EncItems, Rows, ParseObject, Held, SameShape, Import;
    var b := EncItems(items);
    ExportImport(items);
    ReadItemsAt(items, b, Import(b, Offsets(Rows(items, 0))), 0);
  }
}
