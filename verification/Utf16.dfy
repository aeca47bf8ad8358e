/** UTF-16 as the parcel string codec uses it (sections 2.1 and 2.2 of RFC 2781). */
module Utf16 {
  import opened Bytes

  /** A Unicode scalar value: any code point that is not a surrogate. */
  type scalar = x: int | 0 <= x < 0xD800 || 0xE000 <= x <= 0x10FFFF

  type text = seq<scalar>

  predicate High(u: uint16) { 0xD800 <= u <= 0xDBFF }
  predicate Low(u: uint16) { 0xDC00 <= u <= 0xDFFF }

  function EncodeScalar(c: scalar): (r: seq<uint16>)
    ensures 1 <= |r| <= 2
  {
    if c < 0x1_0000 then [c]
    else [0xD800 + (c - 0x1_0000) / 0x400, 0xDC00 + (c - 0x1_0000) % 0x400]
  }

  function Encode(s: text): (r: seq<uint16>)
    ensures |s| <= |r| <= 2 * |s|
  {
    if s == [] then [] else EncodeScalar(s[0]) + Encode(s[1..])
  }

  /** Decoding as `unicode/utf16` does it: a lone surrogate becomes U+FFFD. */
  function Decode(u: seq<uint16>): text {
    if u == [] then []
    else if High(u[0]) && |u| >= 2 && Low(u[1]) then
      [0x1_0000 + (u[0] - 0xD800) * 0x400 + (u[1] - 0xDC00)] + Decode(u[2..])
    else if High(u[0]) || Low(u[0]) then [0xFFFD] + Decode(u[1..])
    else [u[0]] + Decode(u[1..])
  }

  /** Every surrogate is half of a high-low pair. */
  predicate Valid(u: seq<uint16>) {
    u == [] ||
    (if High(u[0]) then |u| >= 2 && Low(u[1]) && Valid(u[2..])
     else !Low(u[0]) && Valid(u[1..]))
  }

  /** The scan of the read path: an index that jumps over each pair it has checked. */
  method ValidateUTF16(units: seq<uint16>) returns (ok: bool)
    ensures ok <==> exists s: text :: Encode(s) == units
  {
    var i := 0;
    while i < |units|
      invariant 0 <= i <= |units|
      invariant Valid(units) <==> Valid(units[i..])
    {
      var rest := units[i..];
      if High(units[i]) {
        if i + 1 >= |units| || !Low(units[i + 1]) {
          ValidIffEncoded(units);
          return false;
        }
        assert rest[2..] == units[i + 2..];
        i := i + 1;
      } else if Low(units[i]) {
        ValidIffEncoded(units);
        return false;
      } else {
        assert rest[1..] == units[i + 1..];
      }
      i := i + 1;
    }
    ValidIffEncoded(units);
    return true;
  }

  /** Encoding any text passes validation and decodes back to the text. */
  lemma {:induction false} DecodeEncode(s: text)
    ensures Valid(Encode(s)) && Decode(Encode(s)) == s
  {
    if s != [] {
      DecodeEncode(s[1..]);
      var h, t := EncodeScalar(s[0]), Encode(s[1..]);
      assert (h + t)[|h|..] == t;
      assert |h| == 2 ==> (h[0] as int - 0xD800) * 0x400 + (h[1] as int - 0xDC00) == s[0] as int - 0x1_0000;
    }
  }

  /** Every accepted unit sequence is re-encoded unchanged. */
  lemma {:induction false} EncodeDecode(u: seq<uint16>)
    requires Valid(u)
    ensures Encode(Decode(u)) == u
    decreases |u|
  {
    if u != [] {
      var d := Decode(u);
      if High(u[0]) {
        EncodeDecode(u[2..]);
        assert d[1..] == Decode(u[2..]);
        assert EncodeScalar(d[0]) == u[..2];
      } else {
        EncodeDecode(u[1..]);
        assert d[1..] == Decode(u[1..]);
        assert EncodeScalar(d[0]) == u[..1];
      }
    }
  }

  /** Validation accepts exactly the encodings of texts. */
  lemma ValidIffEncoded(u: seq<uint16>)
    ensures Valid(u) <==> exists s: text :: Encode(s) == u
  {
    if Valid(u) {
      EncodeDecode(u);
    }
    forall s: text | Encode(s) == u ensures Valid(u) {
      DecodeEncode(s);
    }
  }
}
