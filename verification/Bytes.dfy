/** Bytes as small integers, and numbers as fixed-width groups of them. */
module Bytes {
  type Byte = x: int | 0 <= x < 256

  /** The `i`-th byte of a number, counted from the lowest. */
  function ByteOf(n: nat, i: nat): Byte {
    if i == 0 then n % 256 else ByteOf(n / 256, i - 1)
  }

  /** The lowest `width` bytes of a number, highest first. */
  function BigEndian(n: nat, width: nat): (r: seq<Byte>)
    ensures |r| == width
  {
    seq(width, i requires 0 <= i < width => ByteOf(n, width - 1 - i))
  }

  /** The number a group of bytes stands for, highest first. */
  function Value(s: seq<Byte>): nat {
    if s == [] then 0 else Value(s[..|s| - 1]) * 256 + s[|s| - 1]
  }

  function Power256(width: nat): nat { if width == 0 then 1 else 256 * Power256(width - 1) }

  lemma BigEndianAt(n: nat, width: nat, i: nat)
    requires i < width
    ensures BigEndian(n, width)[i] == ByteOf(n, width - 1 - i)
  {
  }

  lemma BigEndianSplit(n: nat, width: nat)
    requires width > 0
    ensures BigEndian(n, width) == BigEndian(n / 256, width - 1) + [n % 256]
  {
    forall i | 0 <= i < width
      ensures BigEndian(n, width)[i] == (BigEndian(n / 256, width - 1) + [n % 256])[i]
    {
      BigEndianAt(n, width, i);
      if i < width - 1 {
        BigEndianAt(n / 256, width - 1, i);
      }
    }
  }

  /** No information is lost within the width. */
  lemma {:induction false} BigEndianValue(n: nat, width: nat)
    requires n < Power256(width)
    ensures Value(BigEndian(n, width)) == n
  {
    if width == 0 {
      assert BigEndian(n, width) == [];
    } else {
      BigEndianSplit(n, width);
      var high := BigEndian(n / 256, width - 1);
      assert (high + [n % 256])[..width - 1] == high;
      BigEndianValue(n / 256, width - 1);
    }
  }
}
