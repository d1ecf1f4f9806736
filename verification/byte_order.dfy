/** Fixed-width integer encodings as `byteorder`'s `write_u64` /
    `read_u64` produce and consume them. */
module ByteOrder {
  import opened Ints

  function Pow256(n: nat): (r: nat)
    ensures r >= 1
  {
    if n == 0 then 1 else 256 * Pow256(n - 1)
  }

  lemma Pow256Of8()
    ensures Pow256(8) == U64_MODULUS
  {
  }

  /** The `n` low bytes of `x`, most significant first. */
  function BigEndian(x: nat, n: nat): (r: seq<byte>)
    ensures |r| == n
  {
    if n == 0 then [] else BigEndian(x / 256, n - 1) + [x % 256]
  }

  /** The `n` low bytes of `x`, least significant first. */
  function LittleEndian(x: nat, n: nat): (r: seq<byte>)
    ensures |r| == n
  {
    if n == 0 then [] else [x % 256] + LittleEndian(x / 256, n - 1)
  }

  /** The number a big-endian byte string stands for. */
  function FromBigEndian(s: seq<byte>): (r: nat)
    ensures r < Pow256(|s|)
  {
    if s == [] then 0 else FromBigEndian(s[..|s| - 1]) * 256 + s[|s| - 1]
  }

  /** Reading back what was written gives the number, when it fits. */
  lemma {:induction false} BigEndianRoundTrip(x: nat, n: nat)
    requires x < Pow256(n)
    ensures FromBigEndian(BigEndian(x, n)) == x
  {
    if n > 0 {
      var s := BigEndian(x, n);
      assert s[..n - 1] == BigEndian(x / 256, n - 1);
      assert s[n - 1] == x % 256;
      BigEndianRoundTrip(x / 256, n - 1);
    }
  }
}
