/** Unsigned machine integers and their little-endian byte encoding.
    The receiver is read on a little-endian target, so a multi-byte field
    at offset i of a buffer is the little-endian number formed by the bytes
    from i up to i + width. */
module Bytes {

  /** 256^n: the number of distinct values of an n-byte unsigned field. */
  function Pow256(n: nat): (p: nat)
    ensures p >= 1
  {
    if n == 0 then 1 else 256 * Pow256(n - 1)
  }

  type U8 = x: int | 0 <= x < 0x100
  type U16 = x: int | 0 <= x < 0x1_0000
  type U32 = x: int | 0 <= x < 0x1_0000_0000
  type U64 = x: int | 0 <= x < 0x1_0000_0000_0000_0000

  /** The value of a little-endian byte string: the first byte is the least significant. */
  function LittleEndian(s: seq<U8>): (v: nat)
    ensures v < Pow256(|s|)
  {
    if s == [] then 0 else s[0] + 256 * LittleEndian(s[1..])
  }

  /** The n-byte little-endian encoding of v, least significant byte first. */
  function ToLittleEndian(v: nat, n: nat): (s: seq<U8>)
    ensures |s| == n
  {
    if n == 0 then [] else [v % 256] + ToLittleEndian(v / 256, n - 1)
  }

  lemma DivBelowPow(v: nat, n: nat)
    requires n > 0 && v < Pow256(n)
    ensures v / 256 < Pow256(n - 1)
  {
    assert Pow256(n) == 256 * Pow256(n - 1);
  }

  /** Encoding an n-byte value and reading it back gives the value. */
  lemma {:induction false} DecodeEncode(v: nat, n: nat)
    requires v < Pow256(n)
    ensures LittleEndian(ToLittleEndian(v, n)) == v
  {
    if n > 0 {
      DivBelowPow(v, n);
      DecodeEncode(v / 256, n - 1);
      var s := ToLittleEndian(v, n);
      assert s[1..] == ToLittleEndian(v / 256, n - 1);
    }
  }

  /** Reading a byte string and encoding the value at the same width gives the bytes back. */
  lemma {:induction false} EncodeDecode(s: seq<U8>)
    ensures ToLittleEndian(LittleEndian(s), |s|) == s
  {
    if s != [] {
      var v := LittleEndian(s);
      assert v % 256 == s[0] && v / 256 == LittleEndian(s[1..]);
      EncodeDecode(s[1..]);
    }
  }

  /** The field of the given width at offset i of a buffer. */
  function FieldAt(s: seq<U8>, i: nat, width: nat): (v: nat)
    requires i + width <= |s|
    ensures v < Pow256(width)
  {
    LittleEndian(s[i..i + width])
  }

  function U16At(s: seq<U8>, i: nat): U16
    requires i + 2 <= |s|
  {
    FieldAt(s, i, 2)
  }

  function U32At(s: seq<U8>, i: nat): U32
    requires i + 4 <= |s|
  {
    FieldAt(s, i, 4)
  }

  function U64At(s: seq<U8>, i: nat): U64
    requires i + 8 <= |s|
  {
    assert Pow256(8) == 0x1_0000_0000_0000_0000;
    FieldAt(s, i, 8)
  }
}
