/** Machine words and their little-endian byte layout (the `byteorder`
    crate's `LittleEndian`, as the codec uses it). */
module Wire {

  type byte = b: int | 0 <= b < 0x100
  type Bytes = seq<byte>

  const U16_LIMIT: nat := 0x1_0000
  const U32_LIMIT: nat := 0x1_0000_0000
  const U64_LIMIT: nat := 0x1_0000_0000_0000_0000

  type u16 = x: nat | x < U16_LIMIT
  type u32 = x: nat | x < U32_LIMIT
  type u64 = x: nat | x < U64_LIMIT

  /** 256 to the power `n`: one more than the largest value `n` bytes hold. */
  function Pow256(n: nat): (r: nat)
    ensures r > 0
  {
    if n == 0 then 1 else 256 * Pow256(n - 1)
  }

  lemma Limits()
    ensures Pow256(2) == U16_LIMIT && Pow256(4) == U32_LIMIT && Pow256(8) == U64_LIMIT
  {
    assert Pow256(4) == 0x1_0000_0000 by {
      assert Pow256(2) == 0x1_0000;
    }
    assert Pow256(8) == Pow256(4) * Pow256(4) by {
      assert Pow256(8) == 256 * 256 * 256 * 256 * Pow256(4);
    }
  }

  /** The number whose little-endian bytes are `s` (least significant first). */
  function Le(s: Bytes): (r: nat)
    ensures r < Pow256(|s|)
  {
    if s == [] then 0 else s[0] + 256 * Le(s[1..])
  }

  /** The `width` least significant bytes of `x`, least significant first. */
  function ToLe(x: nat, width: nat): (r: Bytes)
    ensures |r| == width
    ensures x < Pow256(width) ==> Le(r) == x
  {
    if width == 0 then []
    else
      var r := [x % 256] + ToLe(x / 256, width - 1);
      assert r[1..] == ToLe(x / 256, width - 1);
      r
  }

  /** Little-endian layout is injective: reading and re-writing gives the bytes back. */
  lemma {:induction false} ToLeOfLe(s: Bytes)
    ensures ToLe(Le(s), |s|) == s
  {
    if s != [] {
      var x := Le(s);
      assert x % 256 == s[0] && x / 256 == Le(s[1..]);
      ToLeOfLe(s[1..]);
    }
  }
}
