/** The parcel wire format as pure functions: what each write leaves in the buffer
    and what each read returns from a buffer and a position. */
module Wire {
  import opened Bytes
  import opened Common
  import Utf16

  /** A read either fails or yields a value and the position just past it. */
  datatype Read<+T> = Fail | Ok(value: T, pos: nat) {
    predicate IsFailure() { Fail? }

    function PropagateFailure<U>(): Read<U>
      requires Fail?
    {
      Fail
    }

    function Extract(): (T, nat)
      requires Ok?
    {
      (value, pos)
    }
  }

  // ----- encodings -----

  /** The cast `int32(n)` of a length, written as four bytes. */
  function EncCount(n: nat): (r: seq<byte>)
    ensures |r| == 4
  {
    LE32(n % 0x1_0000_0000)
  }

  function EncI32(v: int32): (r: seq<byte>)
    ensures |r| == 4
  {
    LE32(ToU32(v))
  }

  function EncI64(v: int64): (r: seq<byte>)
    ensures |r| == 8
  {
    LE64(ToU64(v))
  }

  function EncBool(v: bool): (r: seq<byte>)
    ensures |r| == 4
  {
    EncI32(if v then 1 else 0)
  }

  function EncByte(v: int8): (r: seq<byte>)
    ensures |r| == 4
  {
    Padded([if v < 0 then v + 0x100 else v])
  }

  function EncChar(v: uint16): (r: seq<byte>)
    ensures |r| == 4
  {
    Padded(LE16(v))
  }

  function UnitBytes(units: seq<uint16>): (r: seq<byte>)
    ensures |r| == 2 * |units|
  {
    if units == [] then [] else LE16(units[0]) + UnitBytes(units[1..])
  }

  function EncText(s: Utf16.text): (r: seq<byte>)
    ensures |r| >= 8
  {
    var units := Utf16.Encode(s);
    EncCount(|units|) + Padded(UnitBytes(units) + [0, 0])
  }

  function EncRaw(b: seq<byte>): (r: seq<byte>)
    ensures |r| >= 4
  {
    EncCount(|b|) + Padded(b)
  }

  /** Lengths the format can carry: their cast to int32 is not negative. */
  predicate TextFits(s: Utf16.text) { |Utf16.Encode(s)| <= MAX_INT32 }

  // ----- reads -----

  function ReadBlock(b: seq<byte>, pos: nat, n: nat): (r: Read<seq<byte>>)
    ensures r.Ok? ==> r.pos == pos + Pad(n) <= |b| && r.value == b[pos..pos + n]
  {
    if pos + Pad(n) <= |b| then Ok(b[pos..pos + n], pos + Pad(n)) else Fail
  }

  function ReadI32(b: seq<byte>, pos: nat): (r: Read<int32>)
    ensures r.Ok? ==> r.pos == pos + 4 <= |b|
  {
    var (blk, q) :- ReadBlock(b, pos, 4);
    Ok(ToI32(Get32(blk)), q)
  }

  function ReadU32(b: seq<byte>, pos: nat): (r: Read<uint32>)
    ensures r.Ok? ==> r.pos == pos + 4 <= |b|
  {
    var (blk, q) :- ReadBlock(b, pos, 4);
    Ok(Get32(blk), q)
  }

  function ReadI64(b: seq<byte>, pos: nat): (r: Read<int64>)
    ensures r.Ok? ==> r.pos == pos + 8 <= |b|
  {
    var (blk, q) :- ReadBlock(b, pos, 8);
    Ok(ToI64(Get64(blk)), q)
  }

  function ReadBool(b: seq<byte>, pos: nat): (r: Read<bool>)
    ensures r.Ok? ==> r.pos == pos + 4 <= |b|
  {
    var (v, q) :- ReadI32(b, pos);
    Ok(v != 0, q)
  }

  function ReadByte(b: seq<byte>, pos: nat): (r: Read<int8>)
    ensures r.Ok? ==> r.pos == pos + 4 <= |b|
  {
    var (blk, q) :- ReadBlock(b, pos, 1);
    Ok(if blk[0] < 0x80 then blk[0] else blk[0] as int - 0x100, q)
  }

  function ReadChar(b: seq<byte>, pos: nat): (r: Read<uint16>)
    ensures r.Ok? ==> r.pos == pos + 4 <= |b|
  {
    var (blk, q) :- ReadBlock(b, pos, 2);
    Ok(Get16(blk), q)
  }

  function GetUnits(b: seq<byte>): (r: seq<uint16>)
    requires |b| % 2 == 0
    ensures |r| == |b| / 2
  {
    if b == [] then [] else [Get16(b[..2])] + GetUnits(b[2..])
  }

  /** The body of a string of `n` code units: the units, a zero terminator, padding. */
  function ReadUnits(b: seq<byte>, pos: nat, n: nat): (r: Read<Utf16.text>)
    ensures r.Ok? ==> pos <= r.pos <= |b|
  {
    var (blk, q) :- ReadBlock(b, pos, (n + 1) * 2);
    if Get16(blk[n * 2..]) != 0 then Fail
    else
      var units := GetUnits(blk[..n * 2]);
      if Utf16.Valid(units) then Ok(Utf16.Decode(units), q) else Fail
  }

  function ReadNullableText(b: seq<byte>, pos: nat): (r: Read<Option<Utf16.text>>)
    ensures r.Ok? ==> pos + 4 <= r.pos <= |b|
  {
    var (size, q) :- ReadI32(b, pos);
    if size < 0 then Ok(None, q)
    else
      var (s, q2) :- ReadUnits(b, q, size);
      Ok(Some(s), q2)
  }

  function ReadText(b: seq<byte>, pos: nat): (r: Read<Utf16.text>)
    ensures r.Ok? ==> pos + 4 <= r.pos <= |b|
  {
    var (s, q) :- ReadNullableText(b, pos);
    if s.None? then Fail else Ok(s.value, q)
  }

  /** `ReadBytes`: a negative count is the nil slice. */
  function ReadRaw(b: seq<byte>, pos: nat): (r: Read<Option<seq<byte>>>)
    ensures r.Ok? ==> pos + 4 <= r.pos <= |b|
  {
    var (size, q) :- ReadI32(b, pos);
    if size < 0 then Ok(None, q)
    else
      var (blk, q2) :- ReadBlock(b, q, size);
      Ok(Some(blk), q2)
  }

  // ----- each read undoes its encoding, wherever the encoding stands -----

  lemma ReadPadded(b: seq<byte>, pos: nat, p: seq<byte>)
    requires At(b, pos, Padded(p))
    ensures ReadBlock(b, pos, |p|) == Ok(p, pos + Pad(|p|))
  {
    AtSplit(b, pos, p, Zeros(Pad(|p|) - |p|));
  }

  lemma ReadI32At(b: seq<byte>, pos: nat, v: int32)
    requires At(b, pos, EncI32(v))
    ensures ReadI32(b, pos) == Ok(v, pos + 4)
  {
    Get32LE(ToU32(v));
  }

  lemma ReadU32At(b: seq<byte>, pos: nat, v: uint32)
    requires At(b, pos, LE32(v))
    ensures ReadU32(b, pos) == Ok(v, pos + 4)
  {
    Get32LE(v);
  }

  lemma ReadCountAt(b: seq<byte>, pos: nat, n: nat)
    requires n <= MAX_INT32
    requires At(b, pos, EncCount(n))
    ensures ReadI32(b, pos) == Ok(n, pos + 4)
  {
    Get32LE(n);
  }

  lemma ReadI64At(b: seq<byte>, pos: nat, v: int64)
    requires At(b, pos, EncI64(v))
    ensures ReadI64(b, pos) == Ok(v, pos + 8)
  {
    Get64LE(ToU64(v));
  }

  lemma ReadBoolAt(b: seq<byte>, pos: nat, v: bool)
    requires At(b, pos, EncBool(v))
    ensures ReadBool(b, pos) == Ok(v, pos + 4)
  {
    ReadI32At(b, pos, if v then 1 else 0);
  }

  lemma ReadByteAt(b: seq<byte>, pos: nat, v: int8)
    requires At(b, pos, EncByte(v))
    ensures ReadByte(b, pos) == Ok(v, pos + 4)
  {
    ReadPadded(b, pos, [if v < 0 then v + 0x100 else v]);
  }

  lemma ReadCharAt(b: seq<byte>, pos: nat, v: uint16)
    requires At(b, pos, EncChar(v))
    ensures ReadChar(b, pos) == Ok(v, pos + 4)
  {
    ReadPadded(b, pos, LE16(v));
    Get16LE(v);
  }

  lemma {:induction false} GetUnitsOf(units: seq<uint16>)
    ensures GetUnits(UnitBytes(units)) == units
  {
    if units != [] {
      var r := UnitBytes(units);
      assert r[..2] == LE16(units[0]) && r[2..] == UnitBytes(units[1..]);
      Get16LE(units[0]);
      GetUnitsOf(units[1..]);
    }
  }

  lemma ReadUnitsAt(b: seq<byte>, pos: nat, s: Utf16.text)
    requires At(b, pos, Padded(UnitBytes(Utf16.Encode(s)) + [0, 0]))
    ensures ReadUnits(b, pos, |Utf16.Encode(s)|)
         == Ok(s, pos + |Padded(UnitBytes(Utf16.Encode(s)) + [0, 0])|)
  {
    var units := Utf16.Encode(s);
    var body := UnitBytes(units) + [0, 0];
    assert |body| == (|units| + 1) * 2;
    ReadPadded(b, pos, body);
    assert body[..|units| * 2] == UnitBytes(units) && body[|units| * 2..] == [0, 0];
    assert GetUnits(body[..|units| * 2]) == units by { GetUnitsOf(units); }
    Utf16.DecodeEncode(s);
  }

  /** A string round-trips at any position, consuming exactly its padded encoding. */
  lemma ReadTextAt(b: seq<byte>, pos: nat, s: Utf16.text)
    requires TextFits(s)
    requires At(b, pos, EncText(s))
    ensures ReadText(b, pos) == Ok(s, pos + |EncText(s)|)
    ensures ReadNullableText(b, pos) == Ok(Some(s), pos + |EncText(s)|)
  {
    var units := Utf16.Encode(s);
    AtSplit(b, pos, EncCount(|units|), Padded(UnitBytes(units) + [0, 0]));
    ReadCountAt(b, pos, |units|);
    ReadUnitsAt(b, pos + 4, s);
  }

  lemma ReadRawAt(b: seq<byte>, pos: nat, v: seq<byte>)
    requires |v| <= MAX_INT32
    requires At(b, pos, EncRaw(v))
    ensures ReadRaw(b, pos) == Ok(Some(v), pos + |EncRaw(v)|)
  {
    AtSplit(b, pos, EncCount(|v|), Padded(v));
    ReadCountAt(b, pos, |v|);
    ReadPadded(b, pos + 4, v);
  }

  lemma CountSound(b: seq<byte>, pos: nat)
    requires ReadI32(b, pos).Ok? && ReadI32(b, pos).value >= 0
    ensures At(b, pos, EncCount(ReadI32(b, pos).value))
  {
    LE32Get(b[pos..pos + 4]);
  }

  lemma UnitsSound(blk: seq<byte>, n: nat)
    requires |blk| == (n + 1) * 2 && Get16(blk[n * 2..]) == 0
    ensures blk == UnitBytes(GetUnits(blk[..n * 2])) + [0, 0]
  {
    UnitBytesOf(blk[..n * 2]);
    assert LE16(Get16(blk[n * 2..])) == blk[n * 2..];
  }

  lemma ReadUnitsSound(b: seq<byte>, pos: nat, n: nat)
    requires ReadUnits(b, pos, n).Ok?
    ensures var r := ReadUnits(b, pos, n);
            |Utf16.Encode(r.value)| == n
            && r.pos == pos + Pad((n + 1) * 2)
            && At(b, pos, UnitBytes(Utf16.Encode(r.value)) + [0, 0])
  {
    var blk := b[pos..pos + (n + 1) * 2];
    UnitsSound(blk, n);
    Utf16.EncodeDecode(GetUnits(blk[..n * 2]));
  }

  /** The string reader accepts nothing but an encoding: what it returns encodes to
      the bytes it consumed, up to the padding the reader ignores. */
  lemma ReadTextSound(b: seq<byte>, pos: nat)
    requires ReadText(b, pos).Ok?
    ensures var r := ReadText(b, pos);
            var units := Utf16.Encode(r.value);
            |units| <= MAX_INT32
            && r.pos == pos + 4 + Pad((|units| + 1) * 2)
            && At(b, pos, EncCount(|units|)) && At(b, pos + 4, UnitBytes(units) + [0, 0])
  {
    CountSound(b, pos);
    ReadUnitsSound(b, pos + 4, ReadI32(b, pos).value);
  }

  lemma {:induction false} UnitBytesOf(b: seq<byte>)
    requires |b| % 2 == 0
    ensures UnitBytes(GetUnits(b)) == b
  {
    if b != [] {
      UnitBytesOf(b[2..]);
      assert LE16(Get16(b[..2])) == b[..2];
      assert GetUnits(b)[1..] == GetUnits(b[2..]);
    }
  }
}
