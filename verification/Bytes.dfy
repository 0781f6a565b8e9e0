/** Bytes, optional values and fixed-width big-endian numbers. */
module Bytes {
  type byte = x: int | 0 <= x < 256

  /** Text as the UTF-8 bytes the source hashes, compares and sends. */
  type Text = seq<byte>

  datatype Option<+T> = None | Some(value: T)

  const U64_LIMIT: nat := 0x1_0000_0000_0000_0000
  const U16_LIMIT: nat := 0x1_0000

  type u64 = n: nat | n < U64_LIMIT

  function Pow256(width: nat): (p: nat)
    ensures p >= 1
  {
    if width == 0 then 1 else 256 * Pow256(width - 1)
  }

  /** `width` bytes, most significant first (Rust's `to_be_bytes`); higher digits are cut off. */
  function BigEndian(n: nat, width: nat): (bytes: seq<byte>)
    ensures |bytes| == width
  {
    if width == 0 then [] else BigEndian(n / 256, width - 1) + [n % 256]
  }

  /** Rust's `from_be_bytes`. */
  function FromBigEndian(bytes: seq<byte>): (n: nat)
    ensures n < Pow256(|bytes|)
  {
    if bytes == [] then 0
    else 256 * FromBigEndian(bytes[..|bytes| - 1]) + bytes[|bytes| - 1]
  }

  /** Every number that fits the width survives the trip through its bytes. */
  lemma {:induction false} BigEndianRoundTrip(n: nat, width: nat)
    requires n < Pow256(width)
    ensures FromBigEndian(BigEndian(n, width)) == n
  {
    if width > 0 {
      BigEndianRoundTrip(n / 256, width - 1);
      assert BigEndian(n, width)[..width - 1] == BigEndian(n / 256, width - 1);
    }
  }

  /** A number without its `k` lowest bytes. */
  function Shifted(n: nat, k: nat): nat {
    if k == 0 then n else Shifted(n / 256, k - 1)
  }

  /** The byte at each place, the most significant first. */
  lemma {:induction false} BigEndianPlaces(n: nat, width: nat, i: nat)
    requires i < width
    ensures BigEndian(n, width)[i] == Shifted(n, width - 1 - i) % 256
  {
    if i < width - 1 { BigEndianPlaces(n / 256, width - 1, i); }
  }

  lemma Widths()
    ensures Pow256(4) == 0x1_0000_0000
    ensures Pow256(8) == U64_LIMIT
  {
    assert Pow256(2) == 65536;
    assert Pow256(3) == 0x100_0000;
    assert Pow256(4) == 0x1_0000_0000;
    assert Pow256(5) == 0x100_0000_0000;
    assert Pow256(6) == 0x1_0000_0000_0000;
    assert Pow256(7) == 0x100_0000_0000_0000;
  }

  lemma NothingBehind<T>(a: seq<T>)
    ensures a + [] == a
  {
  }

  lemma Associative<T>(a: seq<T>, b: seq<T>, c: seq<T>)
    ensures (a + b) + c == a + (b + c)
  {
  }
}
