/** Byte-level encodings shared by the whole protocol: fixed-width little-endian
    integers (as produced by .NET's BitConverter on a little-endian machine),
    booleans, opaque 4-byte floats and ASCII text. */
module Wire {

  /** A reference the source may leave null. */
  datatype Option<T> = None | Some(value: T)

  type byte = b: int | 0 <= b < 0x100

  /** C#'s short, int and long. */
  type int16 = x: int | -0x8000 <= x < 0x8000
  type int32 = x: int | -0x8000_0000 <= x < 0x8000_0000
  type int64 = x: int | -0x8000_0000_0000_0000 <= x < 0x8000_0000_0000_0000

  /** A float travels as its four raw bytes; its numeric value is not modelled. */
  type Word = s: seq<byte> | |s| == 4 witness [0, 0, 0, 0]

  /** Unity's Vector3 and Quaternion are sequences of float components. */
  datatype Vector3 = Vector3(x: Word, y: Word, z: Word)
  datatype Quaternion = Quaternion(x: Word, y: Word, z: Word, w: Word)

  function Pow256(n: nat): (r: nat)
    ensures r > 0
  {
    if n == 0 then 1 else 256 * Pow256(n - 1)
  }

  lemma Pow256Values()
    ensures Pow256(1) == 0x100 && Pow256(2) == 0x1_0000 && Pow256(4) == 0x1_0000_0000
    ensures Pow256(8) == 0x1_0000_0000_0000_0000
  {
    assert Pow256(2) == 0x1_0000;
    assert Pow256(4) == 0x1_0000_0000;
  }

  // ---------------------------------------------------------------------------
  // Unsigned little-endian

  /** The `width` little-endian bytes of `u`. */
  function LittleEndian(u: nat, width: nat): (r: seq<byte>)
    requires u < Pow256(width)
    ensures |r| == width
  {
    if width == 0 then [] else [u % 256] + LittleEndian(u / 256, width - 1)
  }

  /** The unsigned value of a little-endian byte sequence. */
  function Unsigned(s: seq<byte>): (u: nat)
    ensures u < Pow256(|s|)
  {
    if s == [] then 0 else s[0] + 256 * Unsigned(s[1..])
  }

  lemma {:induction false} UnsignedOfLittleEndian(u: nat, width: nat)
    requires u < Pow256(width)
    ensures Unsigned(LittleEndian(u, width)) == u
  {
    if width > 0 {
      var r := LittleEndian(u, width);
      assert r[1..] == LittleEndian(u / 256, width - 1);
      UnsignedOfLittleEndian(u / 256, width - 1);
    }
  }

  lemma {:induction false} LittleEndianOfUnsigned(s: seq<byte>)
    ensures LittleEndian(Unsigned(s), |s|) == s
  {
    if s != [] {
      var u := Unsigned(s);
      assert u % 256 == s[0] && u / 256 == Unsigned(s[1..]);
      LittleEndianOfUnsigned(s[1..]);
    }
  }

  // ---------------------------------------------------------------------------
  // Signed (two's complement) little-endian

  predicate Fits(v: int, width: nat)
  {
    width > 0 && -(Pow256(width) as int) <= 2 * v < Pow256(width)
  }

  function EncodeSigned(v: int, width: nat): (r: seq<byte>)
    requires Fits(v, width)
    ensures |r| == width
  {
    LittleEndian(if v < 0 then v + Pow256(width) else v, width)
  }

  function DecodeSigned(s: seq<byte>): int
  {
    var u := Unsigned(s);
    if 2 * u >= Pow256(|s|) then u - Pow256(|s|) else u
  }

  lemma SignedRoundTrip(v: int, width: nat)
    requires Fits(v, width)
    ensures DecodeSigned(EncodeSigned(v, width)) == v
  {
    UnsignedOfLittleEndian(if v < 0 then v + Pow256(width) else v, width);
  }

  lemma DecodeSignedFits(s: seq<byte>)
    requires |s| > 0
    ensures Fits(DecodeSigned(s), |s|)
    ensures EncodeSigned(DecodeSigned(s), |s|) == s
  {
    LittleEndianOfUnsigned(s);
  }

  // ---------------------------------------------------------------------------
  // The fixed-width encodings BitConverter.GetBytes produces

  function EncodeShort(v: int16): (r: seq<byte>)
    ensures |r| == 2
  {
    Pow256Values();
    EncodeSigned(v, 2)
  }

  /** The width of an int on the wire. */
  const IntWidth: nat := 4

  function EncodeInt(v: int32): (r: seq<byte>)
    ensures |r| == 4
  {
    Pow256Values();
    EncodeSigned(v, IntWidth)
  }

  function EncodeLong(v: int64): (r: seq<byte>)
    ensures |r| == 8
  {
    Pow256Values();
    EncodeSigned(v, 8)
  }

  function DecodeShort(s: seq<byte>): (v: int16)
    requires |s| == 2
  {
    DecodeSignedFits(s);
    Pow256Values();
    DecodeSigned(s)
  }

  function DecodeInt(s: seq<byte>): (v: int32)
    requires |s| == 4
  {
    DecodeSignedFits(s);
    Pow256Values();
    DecodeSigned(s)
  }

  function DecodeLong(s: seq<byte>): (v: int64)
    requires |s| == 8
  {
    DecodeSignedFits(s);
    Pow256Values();
    DecodeSigned(s)
  }

  /** BitConverter writes true as 1 and false as 0, and reads any non-zero byte as true. */
  function EncodeBool(b: bool): (r: seq<byte>)
    ensures |r| == 1
  {
    [if b then 1 else 0]
  }

  function DecodeBool(x: byte): bool
  {
    x != 0
  }

  lemma ShortRoundTrip(v: int16)
    ensures DecodeShort(EncodeShort(v)) == v
  {
    Pow256Values();
    SignedRoundTrip(v, 2);
  }

  lemma IntRoundTrip(v: int32)
    ensures DecodeInt(EncodeInt(v)) == v
  {
    Pow256Values();
    SignedRoundTrip(v, 4);
  }

  lemma LongRoundTrip(v: int64)
    ensures DecodeLong(EncodeLong(v)) == v
  {
    Pow256Values();
    SignedRoundTrip(v, 8);
  }

  /** Every 4 bytes are the encoding of exactly one int: the codec is a bijection. */
  lemma IntEncodingOnto(s: seq<byte>)
    requires |s| == 4
    ensures EncodeInt(DecodeInt(s)) == s
  {
    DecodeSignedFits(s);
  }

  lemma EncodeIntInjective(v: int32, w: int32)
    requires EncodeInt(v) == EncodeInt(w)
    ensures v == w
  {
    IntRoundTrip(v);
    IntRoundTrip(w);
  }

  // ---------------------------------------------------------------------------
  // ASCII text: Encoding.ASCII replaces anything outside 0..127 by '?' in both
  // directions. A Dafny char is a Unicode scalar value, not a UTF-16 unit, so
  // the character count agrees with .NET's `Length` only below U+10000, and a
  // lone surrogate cannot be represented.

  const QuestionMark: byte := 63

  predicate IsAscii(s: string)
  {
    forall i :: 0 <= i < |s| ==> s[i] as int < 128
  }

  function AsciiByte(c: char): (b: byte)
    ensures b < 128
  {
    if c as int < 128 then c as int else QuestionMark
  }

  function AsciiChar(b: byte): (c: char)
    ensures c as int < 128
  {
    if b < 128 then b as char else '?'
  }

  function EncodeAscii(s: string): (r: seq<byte>)
    ensures |r| == |s|
  {
    seq(|s|, i requires 0 <= i < |s| => AsciiByte(s[i]))
  }

  function DecodeAscii(bs: seq<byte>): (s: string)
    ensures |s| == |bs|
  {
    seq(|bs|, i requires 0 <= i < |bs| => AsciiChar(bs[i]))
  }

  lemma AsciiRoundTrip(s: string)
    requires IsAscii(s)
    ensures DecodeAscii(EncodeAscii(s)) == s
  {
    var t := DecodeAscii(EncodeAscii(s));
    forall i | 0 <= i < |s| ensures t[i] == s[i] {
      assert (s[i] as int) as char == s[i];
    }
  }

  /** Characters outside ASCII come back as '?'; ASCII ones come back unchanged. */
  lemma NonAsciiBecomesQuestionMark(s: string, i: nat)
    requires i < |s|
    ensures DecodeAscii(EncodeAscii(s))[i] == if s[i] as int < 128 then s[i] else '?'
  {
  }

  /** The most characters a .NET string can hold; building a longer one throws. */
  const MaxStringLength: nat := 0x3FFF_FFDF

  predicate StringFits(s: string)
  {
    |s| <= MaxStringLength
  }

  /** `Write(string)`: a 4-byte character count, then the ASCII bytes. */
  function EncodeString(s: string): (r: seq<byte>)
    requires StringFits(s)
    ensures |r| == 4 + |s|
  {
    EncodeInt(|s|) + EncodeAscii(s)
  }

  function EncodeVector3(v: Vector3): (r: seq<byte>)
    ensures |r| == 12
  {
    v.x + v.y + v.z
  }

  function EncodeQuaternion(q: Quaternion): (r: seq<byte>)
    ensures |r| == 16
  {
    q.x + q.y + q.z + q.w
  }
}
