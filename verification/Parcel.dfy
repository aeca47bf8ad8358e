/** The mutable parcel: a byte buffer, a cursor and an object table. Every write
    overwrites at the cursor and extends the buffer when it runs past its end. */
module Parcels {
  import opened Bytes
  import opened Common
  import opened Wire
  import opened Objects
  import Utf16

  /** The buffer after writing `e` over it at `pos`. */
  function Overwrite(buf: seq<byte>, pos: nat, e: seq<byte>): (r: seq<byte>)
    requires pos <= |buf|
    ensures |r| == (if pos + |e| <= |buf| then |buf| else pos + |e|)
    ensures At(r, pos, e) && r[..pos] == buf[..pos]
    ensures pos + |e| <= |buf| ==> r[pos + |e|..] == buf[pos + |e|..]
    ensures pos == |buf| ==> r == buf + e
  {
    buf[..pos] + e + (if pos + |e| <= |buf| then buf[pos + |e|..] else [])
  }

  /** Writing over the middle piece of a buffer replaces exactly that piece: what
      patching a length slot relies on. */
  lemma OverwriteMiddle(pre: seq<byte>, slot: seq<byte>, post: seq<byte>, e: seq<byte>)
    requires |e| == |slot|
    ensures Overwrite(pre + slot + post, |pre|, e) == pre + e + post
  {
    var buf := pre + slot + post;
    assert buf[..|pre|] == pre && buf[|pre| + |slot|..] == post;
  }

  /** Two writes in a row are one write of both pieces. */
  lemma OverwriteTwice(buf: seq<byte>, pos: nat, e: seq<byte>, f: seq<byte>)
    requires pos <= |buf|
    ensures Overwrite(Overwrite(buf, pos, e), pos + |e|, f) == Overwrite(buf, pos, e + f)
  {
    var one := Overwrite(buf, pos, e);
    assert one[..pos + |e|] == buf[..pos] + e;
  }

  /** The buffer grown with zeros so that it reaches to `end`. */
  function Extend(buf: seq<byte>, end: nat): (r: seq<byte>)
    ensures |r| >= end && |r| >= |buf| && r[..|buf|] == buf
  {
    if end <= |buf| then buf else buf + Zeros(end - |buf|)
  }

  /** A flat object written at `pos`: only its head is filled in, and what stood in the rest
      of the block stays. */
  function FlatWritten(buf: seq<byte>, pos: nat, head: seq<byte>): (r: seq<byte>)
    requires pos <= |buf| && |head| <= FLAT_SIZE
    ensures |r| >= pos + FLAT_SIZE
    ensures r[pos..pos + FLAT_SIZE] == head + Extend(buf, pos + FLAT_SIZE)[pos + |head|..pos + FLAT_SIZE]
  {
    Overwrite(Extend(buf, pos + FLAT_SIZE), pos, head)
  }

  function BinderWritten(buf: seq<byte>, pos: nat, r: BinderRef): seq<byte>
    requires pos <= |buf|
  {
    Overwrite(FlatWritten(buf, pos, Head(r)), pos + FLAT_SIZE, EncI32(Label(r)))
  }

  lemma FlatAtEnd(buf: seq<byte>, head: seq<byte>)
    requires |head| <= FLAT_SIZE
    ensures FlatWritten(buf, |buf|, head) == buf + (head + Zeros(FLAT_SIZE - |head|))
  {
  }

  /** At the end of the buffer the object is the one of the format. */
  lemma BinderAtEnd(buf: seq<byte>, r: BinderRef)
    ensures BinderWritten(buf, |buf|, r) == buf + EncBinder(r)
  {
    hide EncI32, Head, Overwrite, FlatWritten;
    FlatAtEnd(buf, Head(r));
  }

  /** Where the object is, what it is made of, and its label. */
  lemma BlockWritten(buf: seq<byte>, pos: nat, r: BinderRef)
    requires pos <= |buf|
    ensures var b := BinderWritten(buf, pos, r);
            ReadBlock(b, pos, FLAT_SIZE)
            == Ok(Head(r) + Extend(buf, pos + FLAT_SIZE)[pos + |Head(r)|..pos + FLAT_SIZE], pos + FLAT_SIZE)
            && ReadI32(b, pos + FLAT_SIZE) == Ok(Label(r), pos + BINDER_WIRE_SIZE)
  {
    hide EncI32, Head, ReadI32, Extend, FlatWritten;
    var flat := FlatWritten(buf, pos, Head(r));
    var b := BinderWritten(buf, pos, r);
    assert b[pos..pos + FLAT_SIZE] == b[..pos + FLAT_SIZE][pos..] == flat[..pos + FLAT_SIZE][pos..];
    assert flat[..pos + FLAT_SIZE][pos..] == flat[pos..pos + FLAT_SIZE];
    ReadI32At(b, pos + FLAT_SIZE, Label(r));
  }

  lemma HeadFields(r: BinderRef, stale: seq<byte>)
    requires r.Null? || r.Proper()
    requires |stale| == FLAT_SIZE - |Head(r)|
    ensures var blk := Head(r) + stale;
            Get32(blk[..4]) == (if r.Remote? then TYPE_HANDLE else TYPE_BINDER)
            && (r.Remote? ==> Get32(blk[8..12]) == r.handle)
            && (r.Local? ==> Get64(blk[16..24]) == r.node && !IsNullBlock(blk))
            && (r.Null? ==> (IsNullBlock(blk) <==> forall k :: 4 <= k < |stale| ==> stale[k] == 0))
  {
    var blk := Head(r) + stale;
    match r
    case Remote(h, _) =>
      assert blk[..4] == LE32(TYPE_HANDLE) && blk[8..12] == LE32(h);
      Get32LE(TYPE_HANDLE);
      Get32LE(h);
    case Local(n, _) =>
      assert blk[..4] == LE32(TYPE_BINDER) && blk[16..24] == LE64(n);
      Get32LE(TYPE_BINDER);
      Get64LE(n);
    case Null =>
      assert blk[..4] == LE32(TYPE_BINDER);
      Get32LE(TYPE_BINDER);
      NullBlockIff(blk, stale);
  }

  lemma NullBlockIff(blk: seq<byte>, stale: seq<byte>)
    requires |blk| == FLAT_SIZE && |stale| == 20 && blk[4..] == stale && Get32(blk[..4]) == TYPE_BINDER
    ensures IsNullBlock(blk) <==> forall k :: 4 <= k < 20 ==> stale[k] == 0
  {
    hide Get64;
    assert forall k :: 0 <= k < 8 ==> blk[8..16][k] == stale[k + 4];
    assert forall k :: 0 <= k < 8 ==> blk[16..24][k] == stale[k + 12];
    Get64Zero(blk[8..16]);
    Get64Zero(blk[16..24]);
    if forall k :: 0 <= k < 8 ==> blk[8..16][k] == 0 && blk[16..24][k] == 0 {
      forall k | 4 <= k < 20 ensures stale[k] == 0 {
        if k < 12 { assert blk[8..16][k - 4] == 0; } else { assert blk[16..24][k - 12] == 0; }
      }
    }
  }

  /** The part of a buffer where a null binder is recognised by its zeros. */
  predicate ClearAt(buf: seq<byte>, pos: nat) {
    forall k :: pos + 8 <= k < pos + FLAT_SIZE && k < |buf| ==> buf[k] == 0
  }

  /** A binder written at any place of a buffer reads back if and only if: for a null binder,
      the bytes there were zero, since writing it leaves them; for any other, the table had no
      row for the place, or one for a strong binder, since the first row counts. */
  lemma ReadsBackIff(buf: seq<byte>, objs: seq<ObjectRef>, pos: nat, r: BinderRef)
    requires pos <= |buf| && (r.Null? || r.Proper())
    ensures ReadBinder(BinderWritten(buf, pos, r), objs + BinderRows(r, pos), pos) == Ok(r, pos + BINDER_WIRE_SIZE)
      <==> if r.Null? then ClearAt(buf, pos)
           else ObjectAt(objs, pos).None? || ObjectAt(objs, pos).value.kind == StrongBinder
  {
    hide BinderWritten, ReadI32, ReadBlock, Head, IsNullBlock, ObjectAt, Get32, Get64, Extend, ClearAt;
    BlockWritten(buf, pos, r);
    var stale := Extend(buf, pos + FLAT_SIZE)[pos + |Head(r)|..pos + FLAT_SIZE];
    HeadFields(r, stale);
    if r.Null? {
      StaleIff(buf, pos, r, stale);
    } else {
      FirstRow(objs, BinderRows(r, pos)[0]);
    }
  }

  /** A null binder written over a buffer of ones is not null to the reader. */
  lemma NullOverOnes(buf: seq<byte>)
    requires buf == seq(BINDER_WIRE_SIZE, _ => 1)
    ensures ReadBinder(BinderWritten(buf, 0, Null), [], 0) != Ok(Null, BINDER_WIRE_SIZE)
  {
    hide BinderWritten, ReadBinder;
    assert buf[8] == 1 && !ClearAt(buf, 0);
    ReadsBackIff(buf, [], 0, Null);
    assert [] + BinderRows(Null, 0) == [];
  }

  lemma StaleIff(buf: seq<byte>, pos: nat, r: BinderRef, stale: seq<byte>)
    requires r.Null? && pos <= |buf| && stale == Extend(buf, pos + FLAT_SIZE)[pos + |Head(r)|..pos + FLAT_SIZE]
    ensures (forall k :: 4 <= k < |stale| ==> stale[k] == 0) <==> ClearAt(buf, pos)
  {
    var all := Extend(buf, pos + FLAT_SIZE);
    assert forall k :: 4 <= k < 20 ==> stale[k] == all[pos + 4 + k];
    if forall k :: 4 <= k < |stale| ==> stale[k] == 0 {
      forall k | pos + 8 <= k < pos + FLAT_SIZE && k < |buf| ensures buf[k] == 0 {
        assert stale[k - pos - 4] == all[k] == buf[k];
      }
    }
  }

  lemma {:induction false} FirstRow(objs: seq<ObjectRef>, row: ObjectRef)
    ensures ObjectAt(objs + [row], row.offset)
         == if ObjectAt(objs, row.offset).Some? then ObjectAt(objs, row.offset) else Some(row)
  {
    if objs != [] {
      assert (objs + [row])[1..] == objs[1..] + [row];
      FirstRow(objs[1..], row);
    }
  }

  class Parcel {
    var buf: seq<byte>
    var pos: nat
    var objects: seq<ObjectRef>
    /** Whether descriptors may be written. */
    const allowFds: bool

    /** The cursor never leaves the buffer. */
    ghost predicate Valid() reads this { pos <= |buf| }

    /** `NewParcel`. */
    constructor ()
      ensures Valid() && buf == [] && pos == 0 && objects == [] && allowFds
    {
      buf, pos, objects, allowFds := [], 0, [], true;
    }

    /** A parcel that was not made by `NewParcel`. */
    constructor Bare()
      ensures Valid() && buf == [] && pos == 0 && objects == [] && !allowFds
    {
      buf, pos, objects, allowFds := [], 0, [], false;
    }

    method SetPosition(p: int) returns (ok: bool)
      requires Valid()
      modifies this`pos
      ensures Valid() && (ok <==> 0 <= p <= |buf|)
      ensures pos == if ok then p else old(pos)
    {
      if p < 0 || p > |buf| {
        return false;
      }
      pos := p;
      return true;
    }

    // ----- writes -----

    method Reserve(n: nat)
      requires Valid()
      modifies this`buf, this`pos
      ensures Valid() && pos == old(pos) + n
      ensures buf == if pos <= |old(buf)| then old(buf) else old(buf) + Zeros(pos - |old(buf)|)
    {
      var end := pos + n;
      if end > |buf| {
        buf := buf + Zeros(end - |buf|);
      }
      pos := end;
    }

    /** Reserves the padded block, fills it and clears the padding. */
    method WriteBlock(payload: seq<byte>)
      requires Valid()
      modifies this`buf, this`pos
      ensures Valid() && pos == old(pos) + Pad(|payload|)
      ensures buf == Overwrite(old(buf), old(pos), Padded(payload))
    {
      var start, n := pos, |payload|;
      Reserve(Pad(n));
      buf := buf[..start] + payload + buf[start + n..];
      buf := buf[..start + n] + Zeros(pos - (start + n)) + buf[pos..];
      assert buf[..start] == old(buf)[..start];
    }

    method WriteInt32(v: int32)
      requires Valid()
      modifies this`buf, this`pos
      ensures Valid() && pos == old(pos) + 4 && buf == Overwrite(old(buf), old(pos), EncI32(v))
    {
      assert Padded(EncI32(v)) == EncI32(v);
      WriteBlock(EncI32(v));
    }

    /** Writes the cast `int32(n)` of a length. */
    method WriteCount(n: nat)
      requires Valid()
      modifies this`buf, this`pos
      ensures Valid() && pos == old(pos) + 4 && buf == Overwrite(old(buf), old(pos), EncCount(n))
    {
      assert Padded(EncCount(n)) == EncCount(n);
      WriteBlock(EncCount(n));
    }

    method WriteInt64(v: int64)
      requires Valid()
      modifies this`buf, this`pos
      ensures Valid() && pos == old(pos) + 8 && buf == Overwrite(old(buf), old(pos), EncI64(v))
    {
      assert Padded(EncI64(v)) == EncI64(v);
      WriteBlock(EncI64(v));
    }

    method WriteBool(v: bool)
      requires Valid()
      modifies this`buf, this`pos
      ensures Valid() && pos == old(pos) + 4 && buf == Overwrite(old(buf), old(pos), EncBool(v))
    {
      WriteInt32(if v then 1 else 0);
    }

    /** Refuses, without writing, a string of more than 2^31 - 1 code units. */
    method WriteString(s: Utf16.text) returns (ok: bool)
      requires Valid()
      modifies this`buf, this`pos
      ensures Valid() && (ok <==> TextFits(s))
      ensures !ok ==> buf == old(buf) && pos == old(pos)
      ensures ok ==> pos == old(pos) + |EncText(s)| && buf == Overwrite(old(buf), old(pos), EncText(s))
    {
      var units := Utf16.Encode(s);
      if |units| > MAX_INT32 {
        return false;
      }
      WriteCount(|units|);
      WriteBlock(UnitBytes(units) + [0, 0]);
      OverwriteTwice(old(buf), old(pos), EncCount(|units|), Padded(UnitBytes(units) + [0, 0]));
      return true;
    }

    method WriteBytes(b: seq<byte>) returns (ok: bool)
      requires Valid()
      modifies this`buf, this`pos
      ensures Valid() && (ok <==> |b| <= MAX_INT32)
      ensures !ok ==> buf == old(buf) && pos == old(pos)
      ensures ok ==> pos == old(pos) + |EncRaw(b)| && buf == Overwrite(old(buf), old(pos), EncRaw(b))
    {
      if |b| > MAX_INT32 {
        return false;
      }
      WriteCount(|b|);
      WriteBlock(b);
      OverwriteTwice(old(buf), old(pos), EncCount(|b|), Padded(b));
      return true;
    }

    /** Reserves the block of a flat object and fills in its head. */
    method WriteFlat(head: seq<byte>)
      requires Valid() && |head| <= FLAT_SIZE
      modifies this`buf, this`pos
      ensures Valid() && pos == old(pos) + FLAT_SIZE && buf == FlatWritten(old(buf), old(pos), head)
    {
      var start := pos;
      Reserve(FLAT_SIZE);
      buf := buf[..start] + head + buf[start + |head|..];
    }

    /** Writes a strong binder at the cursor and records its row in the table; at the end of
        the buffer that appends its encoding. */
    method WriteStrongBinder(r: BinderRef)
      requires Valid()
      modifies this
      ensures Valid() && pos == old(pos) + BINDER_WIRE_SIZE
      ensures buf == BinderWritten(old(buf), old(pos), r)
      ensures old(pos) == |old(buf)| ==> pos == |buf| && buf == old(buf) + EncBinder(r)
      ensures objects == old(objects) + BinderRows(r, old(pos))
    {
      var start := pos;
      WriteFlat(Head(r));
      WriteInt32(Label(r));
      objects := objects + BinderRows(r, start);
      BinderAtEnd(old(buf), r);
    }

    /** Refuses negative descriptors, and all if the parcel does not allow them; others are
        cast to 32 bits. */
    method WriteFileDescriptor(fd: int) returns (ok: bool)
      requires Valid()
      modifies this
      ensures Valid() && (ok <==> allowFds && fd >= 0)
      ensures !ok ==> buf == old(buf) && pos == old(pos) && objects == old(objects)
      ensures ok ==> pos == old(pos) + FLAT_SIZE && buf == FlatWritten(old(buf), old(pos), FdHead(fd % WRAP))
                     && objects == old(objects) + FdRows(fd % WRAP, old(pos))
      ensures ok && old(pos) == |old(buf)| ==> pos == |buf| && buf == old(buf) + EncFd(fd % WRAP)
    {
      if !allowFds {
        return false;
      }
      if fd < 0 {
        return false;
      }
      var start, raw := pos, fd % WRAP;
      WriteFlat(FdHead(raw));
      objects := objects + FdRows(raw, start);
      FlatAtEnd(old(buf), FdHead(raw));
      return true;
    }

    // ----- reads: each is the pure read at the cursor -----

    method ReadInt32() returns (r: Read<int32>)
      requires Valid()
      modifies this`pos
      ensures Valid() && r == ReadI32(buf, old(pos))
      ensures pos == if r.Ok? then r.pos else old(pos)
    {
      r := ReadI32(buf, pos);
      if r.Ok? {
        pos := r.pos;
      }
    }

    /** Count, block, terminator, surrogate check, decoding. */
    method ReadNullableString() returns (r: Read<Option<Utf16.text>>)
      requires Valid()
      modifies this`pos
      ensures Valid() && r == ReadNullableText(buf, old(pos))
      ensures r.Ok? ==> pos == r.pos
    {
      hide Pad, ReadI32, ReadBlock, Utf16.Valid, Utf16.Decode, Utf16.Encode, GetUnits;
      var size := ReadInt32();
      if size.Fail? {
        return Fail;
      }
      if size.value < 0 {
        return Ok(None, pos);
      }
      var n: nat := size.value;
      var block := ReadBlock(buf, pos, (n + 1) * 2);
      if block.Fail? {
        return Fail;
      }
      pos := block.pos;
      if Get16(block.value[n * 2..]) != 0 {
        return Fail;
      }
      var units := GetUnits(block.value[..n * 2]);
      var valid := Utf16.ValidateUTF16(units);
      Utf16.ValidIffEncoded(units);
      if !valid {
        return Fail;
      }
      return Ok(Some(Utf16.Decode(units)), pos);
    }

    method ReadString() returns (r: Read<Utf16.text>)
      requires Valid()
      modifies this`pos
      ensures Valid() && r == ReadText(buf, old(pos))
      ensures r.Ok? ==> pos == r.pos
    {
      var s := ReadNullableString();
      if s.Fail? || s.value.None? {
        return Fail;
      }
      return Ok(s.value.value, pos);
    }

    method ReadBytes() returns (r: Read<Option<seq<byte>>>)
      requires Valid()
      modifies this`pos
      ensures Valid() && r == ReadRaw(buf, old(pos))
      ensures r.Ok? ==> pos == r.pos
    {
      var size := ReadInt32();
      if size.Fail? {
        return Fail;
      }
      if size.value < 0 {
        return Ok(None, pos);
      }
      var block := ReadBlock(buf, pos, size.value);
      if block.Fail? {
        return Fail;
      }
      pos := block.pos;
      return Ok(Some(block.value), pos);
    }

    /** The first row of the table at an offset. */
    method FindObject(offset: nat) returns (r: Option<ObjectRef>)
      ensures r == ObjectAt(objects, offset)
      ensures r.Some? <==> exists i :: 0 <= i < |objects| && objects[i].offset == offset
      ensures r.Some? ==> exists i :: 0 <= i < |objects| && objects[i] == r.value && r.value.offset == offset
                                      && forall k :: 0 <= k < i ==> objects[k].offset != offset
    {
      assert objects[0..] == objects;
      for i := 0 to |objects|
        invariant ObjectAt(objects, offset) == ObjectAt(objects[i..], offset)
        invariant forall k :: 0 <= k < i ==> objects[k].offset != offset
      {
        if objects[i].offset == offset {
          return Some(objects[i]);
        }
        assert objects[i..][1..] == objects[i + 1..];
      }
      return None;
    }

    /** Block, type, table row, label; the cursor has passed the block also when a later
        check fails. */
    method ReadStrongBinder() returns (r: Read<BinderRef>)
      requires Valid()
      modifies this`pos
      ensures Valid() && r == ReadBinder(buf, objects, old(pos))
      ensures pos == if r.Ok? then r.pos else if old(pos) + FLAT_SIZE <= |buf| then old(pos) + FLAT_SIZE else old(pos)
    {
      hide ReadI32, ObjectAt, Get32, Get64;
      var start := pos;
      var block := ReadBlock(buf, pos, FLAT_SIZE);
      if block.Fail? {
        return Fail;
      }
      pos := block.pos;
      var typ := Get32(block.value[..4]);
      if typ == TYPE_BINDER {
        if IsNullBlock(block.value) {
          var none := ReadInt32();
          return if none.Fail? then Fail else Ok(Null, pos);
        }
      } else if typ != TYPE_HANDLE {
        return Fail;
      }
      var ref := FindObject(start);
      if ref.None? {
        return Fail;
      }
      if ref.value.kind != StrongBinder {
        return Fail;
      }
      var stability := ReadInt32();
      if stability.Fail? {
        return Fail;
      }
      if typ == TYPE_HANDLE {
        return Ok(Remote(Get32(block.value[8..12]), stability.value), pos);
      }
      return Ok(Local(Get64(block.value[16..24]), stability.value), pos);
    }

    method ReadFileDescriptor() returns (r: Read<int32>)
      requires Valid()
      modifies this`pos
      ensures Valid() && r == ReadFd(buf, objects, old(pos))
      ensures pos == if old(pos) + FLAT_SIZE <= |buf| then old(pos) + FLAT_SIZE else old(pos)
    {
      hide ObjectAt, Get32;
      var start := pos;
      var block := ReadBlock(buf, pos, FLAT_SIZE);
      if block.Fail? {
        return Fail;
      }
      pos := block.pos;
      if Get32(block.value[..4]) != TYPE_FD {
        return Fail;
      }
      var ref := FindObject(start);
      if ref.None? {
        return Fail;
      }
      if ref.value.kind != FileDescriptor {
        return Fail;
      }
      return Ok(ToI32(Get32(block.value[8..12])), pos);
    }
  }
}
