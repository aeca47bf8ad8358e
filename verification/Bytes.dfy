/** Little-endian integers, four-byte padding and byte-slice reasoning shared by
    every wire format of the library. */
module Bytes {

  type byte = x: int | 0 <= x < 256
  type uint16 = x: int | 0 <= x < 0x1_0000
  type uint32 = x: int | 0 <= x < 0x1_0000_0000
  type uint64 = x: int | 0 <= x < 0x1_0000_0000_0000_0000
  type int8 = x: int | -0x80 <= x < 0x80
  type int16 = x: int | -0x8000 <= x < 0x8000
  type int32 = x: int | -0x8000_0000 <= x < 0x8000_0000
  type int64 = x: int | -0x8000_0000_0000_0000 <= x < 0x8000_0000_0000_0000

  const MAX_INT32 := 0x7FFF_FFFF

  // ----- two's complement reinterpretation (Go's conversions between widths) -----

  function ToU32(v: int32): uint32 { if v < 0 then v + 0x1_0000_0000 else v }
  function ToI32(u: uint32): int32 { if u < 0x8000_0000 then u else u - 0x1_0000_0000 }
  function ToU64(v: int64): uint64 { if v < 0 then v + 0x1_0000_0000_0000_0000 else v }
  function ToI64(u: uint64): int64 { if u < 0x8000_0000_0000_0000 then u else u - 0x1_0000_0000_0000_0000 }

  /** Go's truncating conversions `int16(v)`, `int8(v)` and `uint16(v)` of an int32. */
  function TruncI16(v: int32): int16 { var m := v % 0x1_0000; if m < 0x8000 then m else m - 0x1_0000 }
  function TruncI8(v: int32): int8 { var m := v % 0x100; if m < 0x80 then m else m - 0x100 }
  function TruncU16(v: int32): uint16 { v % 0x1_0000 }

  // ----- little-endian -----

  function LE16(u: uint16): (r: seq<byte>)
    ensures |r| == 2
  {
    [u % 256, u / 256]
  }

  function LE32(u: uint32): (r: seq<byte>)
    ensures |r| == 4
  {
    LE16(u % 0x1_0000) + LE16(u / 0x1_0000)
  }

  function LE64(u: uint64): (r: seq<byte>)
    ensures |r| == 8
  {
    LE32(u % 0x1_0000_0000) + LE32(u / 0x1_0000_0000)
  }

  function Get16(b: seq<byte>): uint16
    requires |b| == 2
  {
    (b[0] as int) + 256 * (b[1] as int)
  }

  function Get32(b: seq<byte>): uint32
    requires |b| == 4
  {
    Get16(b[..2]) + 0x1_0000 * Get16(b[2..])
  }

  function Get64(b: seq<byte>): uint64
    requires |b| == 8
  {
    Get32(b[..4]) + 0x1_0000_0000 * Get32(b[4..])
  }

  lemma Get16LE(u: uint16)
    ensures Get16(LE16(u)) == u
  {}

  lemma Get32LE(u: uint32)
    ensures Get32(LE32(u)) == u
  {
    assert LE32(u)[..2] == LE16(u % 0x1_0000);
    assert LE32(u)[2..] == LE16(u / 0x1_0000);
    Get16LE(u % 0x1_0000);
    Get16LE(u / 0x1_0000);
  }

  lemma Get64LE(u: uint64)
    ensures Get64(LE64(u)) == u
  {
    assert LE64(u)[..4] == LE32(u % 0x1_0000_0000);
    assert LE64(u)[4..] == LE32(u / 0x1_0000_0000);
    Get32LE(u % 0x1_0000_0000);
    Get32LE(u / 0x1_0000_0000);
  }

  lemma LE32Get(b: seq<byte>)
    requires |b| == 4
    ensures LE32(Get32(b)) == b
  {
    assert Get32(b) % 0x1_0000 == Get16(b[..2]) && Get32(b) / 0x1_0000 == Get16(b[2..]);
    assert LE16(Get16(b[..2])) == b[..2] && LE16(Get16(b[2..])) == b[2..];
  }

  lemma Get64Zero(b: seq<byte>)
    requires |b| == 8
    ensures Get64(b) == 0 <==> forall k :: 0 <= k < 8 ==> b[k] == 0
  {
    var lo, hi := b[..4], b[4..];
    assert lo[..2] == [b[0], b[1]] && lo[2..] == [b[2], b[3]];
    assert hi[..2] == [b[4], b[5]] && hi[2..] == [b[6], b[7]];
  }

  // ----- padding -----

  /** Length of a block once padded to the parcel alignment of four bytes. */
  function Pad(n: nat): (r: nat)
    ensures n <= r < n + 4 && r % 4 == 0
  {
    (n + 3) / 4 * 4
  }

  function Zeros(n: nat): (r: seq<byte>)
    ensures |r| == n
  {
    seq(n, _ => 0)
  }

  /** A payload followed by its zero padding, as every parcel write leaves it. */
  function Padded(payload: seq<byte>): (r: seq<byte>)
    ensures |r| == Pad(|payload|) && r[..|payload|] == payload
  {
    payload + Zeros(Pad(|payload|) - |payload|)
  }

  // ----- slices -----

  /** The bytes `e` stand in `b` at position `pos`. */
  ghost predicate At(b: seq<byte>, pos: nat, e: seq<byte>) {
    pos + |e| <= |b| && b[pos..pos + |e|] == e
  }

  lemma AtSplit(b: seq<byte>, pos: nat, e: seq<byte>, f: seq<byte>)
    requires At(b, pos, e + f)
    ensures At(b, pos, e) && At(b, pos + |e|, f)
  {
    var w := b[pos..pos + |e + f|];
    assert w[..|e|] == e && w[|e|..] == f;
    assert b[pos..pos + |e|] == w[..|e|];
    assert b[pos + |e|..pos + |e| + |f|] == w[|e|..];
  }

  lemma AtSub(b: seq<byte>, pos: nat, e: seq<byte>, i: nat, j: nat)
    requires At(b, pos, e) && i <= j <= |e|
    ensures b[pos + i..pos + j] == e[i..j]
  {
    var w := b[pos..pos + |e|];
    forall k | 0 <= k < j - i ensures b[pos + i..pos + j][k] == w[i..j][k] {
      assert w[i + k] == b[pos + i + k];
    }
  }

  lemma AtAppend(pre: seq<byte>, e: seq<byte>, rest: seq<byte>)
    ensures At(pre + e + rest, |pre|, e)
  {}
}
