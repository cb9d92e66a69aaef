/** Bytes, fixed-width big-endian integers, and the growable buffer the codecs append to. */
module Bytes {

  type byte = b: int | 0 <= b < 256

  function Pow256(w: nat): (p: nat)
    ensures p >= 1
  {
    if w == 0 then 1 else 256 * Pow256(w - 1)
  }

  /** The `w`-byte big-endian image of `n`; higher-order bytes are cut off, as a narrowing cast does. */
  function BigEndian(n: nat, w: nat): (s: seq<byte>)
    ensures |s| == w
    decreases w
  {
    if w == 0 then [] else BigEndian(n / 256, w - 1) + [n % 256]
  }

  function FromBigEndian(s: seq<byte>): (n: nat)
    ensures n < Pow256(|s|)
  {
    if s == [] then 0 else
      var front := FromBigEndian(s[..|s| - 1]);
      assert front <= Pow256(|s| - 1) - 1;
      256 * front + s[|s| - 1]
  }

  lemma {:induction false} BigEndianRoundTrip(n: nat, w: nat)
    requires n < Pow256(w)
    ensures FromBigEndian(BigEndian(n, w)) == n
    decreases w
  {
    if w > 0 {
      BigEndianRoundTrip(n / 256, w - 1);
      assert BigEndian(n, w)[..w - 1] == BigEndian(n / 256, w - 1);
    }
  }

  /** Network byte order: the first byte weighs most. */
  function Positional(s: seq<byte>): nat {
    if s == [] then 0 else s[0] * Pow256(|s| - 1) + Positional(s[1..])
  }

  lemma {:induction false} NetworkOrder(s: seq<byte>)
    ensures FromBigEndian(s) == Positional(s)
    decreases |s|
  {
    if s != [] {
      var init, last := s[..|s| - 1], s[|s| - 1];
      NetworkOrder(init);
      PositionalLast(init, last);
      assert s == init + [last];
    }
  }

  lemma {:induction false} PositionalLast(init: seq<byte>, last: byte)
    ensures Positional(init + [last]) == 256 * Positional(init) + last
  {
    var s := init + [last];
    if init == [] {
      assert s[1..] == [];
    } else {
      assert s[1..] == init[1..] + [last];
      PositionalLast(init[1..], last);
      assert Pow256(|init|) == 256 * Pow256(|init| - 1);
      assert s[0] * (256 * Pow256(|init| - 1)) == 256 * (s[0] * Pow256(|init| - 1));
    }
  }

  const TWO15 := 0x8000
  const TWO16 := 0x1_0000
  const TWO31 := 0x8000_0000
  const TWO32 := 0x1_0000_0000

  lemma Widths()
    ensures Pow256(1) == 256 && Pow256(2) == TWO16 && Pow256(4) == TWO32
  {
    assert Pow256(3) == 0x100_0000;
  }

  /** Two's complement images of signed values: `put_i16` and `put_i32`. */
  function I16(n: int): (s: seq<byte>)
    ensures |s| == 2
  {
    BigEndian(n % TWO16, 2)
  }

  function I32(n: int): (s: seq<byte>)
    ensures |s| == 4
  {
    BigEndian(n % TWO32, 4)
  }

  /** `i16::from_be_bytes` and `i32::from_be_bytes`. */
  function ToI16(s: seq<byte>): (n: int)
    requires |s| == 2
    ensures -TWO15 <= n < TWO15
  {
    Widths();
    var u := FromBigEndian(s);
    if u < TWO15 then u else u - TWO16
  }

  function ToI32(s: seq<byte>): (n: int)
    requires |s| == 4
    ensures -TWO31 <= n < TWO31
  {
    Widths();
    var u := FromBigEndian(s);
    if u < TWO31 then u else u - TWO32
  }

  lemma I16RoundTrip(n: int)
    requires -TWO15 <= n < TWO15
    ensures ToI16(I16(n)) == n
  {
    Widths();
    BigEndianRoundTrip(n % TWO16, 2);
  }

  lemma I32RoundTrip(n: int)
    requires -TWO31 <= n < TWO31
    ensures ToI32(I32(n)) == n
  {
    Widths();
    BigEndianRoundTrip(n % TWO32, 4);
  }

  /** Read back as signed and reduced again, an unsigned value is unchanged. */
  lemma U32RoundTrip(n: int)
    requires 0 <= n < TWO32
    ensures ToI32(I32(n)) % TWO32 == n
  {
    Widths();
    assert n % TWO32 == n;
    BigEndianRoundTrip(n, 4);
  }

  /** The byte buffer every encoder appends to (`BytesMut` in the source). */
  class Buffer {
    var data: seq<byte>

    constructor ()
      ensures data == []
    {
      data := [];
    }

    method PutByte(b: byte)
      modifies this
      ensures data == old(data) + [b]
    {
      data := data + [b];
    }

    method PutSlice(s: seq<byte>)
      modifies this
      ensures data == old(data) + s
    {
      data := data + s;
    }

    method PutI16(n: int)
      modifies this
      ensures data == old(data) + I16(n)
    {
      data := data + I16(n);
    }

    method PutI32(n: int)
      modifies this
      ensures data == old(data) + I32(n)
    {
      data := data + I32(n);
    }

    /** Overwrites four bytes already written: the length slot that is filled in afterwards. */
    method PatchI32(start: nat, n: int)
      requires start + 4 <= |data|
      modifies this
      ensures data == old(data)[..start] + I32(n) + old(data)[start + 4..]
    {
      data := data[..start] + I32(n) + data[start + 4..];
    }
  }
}
