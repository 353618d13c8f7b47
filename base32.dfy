/**
 * Base 32 encoding without padding, as in section 6 of RFC 4648 (Go's
 * `base32.StdEncoding.WithPadding(base32.NoPadding)`): every 5 input bytes
 * give 8 characters of the alphabet; a final partial group is encoded as if
 * padded with zero bytes, keeping only the characters that carry input bits.
 */
module Base32 {
  import opened Wrappers

  /** The alphabet of Table 3 of RFC 4648. */
  const Alphabet: string := "ABCDEFGHIJKLMNOPQRSTUVWXYZ234567"

  /** 32 to the powers 7 down to 0: character k of a group holds bits 35-5k .. 39-5k. */
  const Powers: seq<nat> := [34359738368, 1073741824, 33554432, 1048576, 32768, 1024, 32, 1]

  /** A 5-byte group as a 40-bit number, first byte most significant. */
  function GroupValue(b: seq<byte>): nat
    requires |b| == 5
  {
    (b[0] as int) * 0x1_0000_0000 + (b[1] as int) * 0x100_0000 + (b[2] as int) * 0x1_0000 + (b[3] as int) * 0x100 + b[4] as int
  }

  /** The first `n` of the 8 characters that encode a 5-byte group. */
  function EncodeGroup(b: seq<byte>, n: nat): (s: string)
    requires |b| == 5 && n <= 8
    ensures |s| == n
    ensures forall i :: 0 <= i < |s| ==> s[i] in Alphabet
  {
    seq(n, k requires 0 <= k < n => Alphabet[(GroupValue(b) / Powers[k]) % 32])
  }

  /** How many characters a final group of `m` bytes needs: ceil(8m / 5). */
  function TailLength(m: nat): nat
    requires 1 <= m <= 4
  {
    [0, 2, 4, 5, 7][m]
  }

  /** The unpadded encoding of `src`. */
  function Encode(src: seq<byte>): (s: string)
    ensures |s| == (8 * |src| + 4) / 5
    ensures forall i :: 0 <= i < |s| ==> s[i] in Alphabet
    decreases |src|
  {
    if |src| == 0 then ""
    else if |src| >= 5 then EncodeGroup(src[..5], 8) + Encode(src[5..])
    else
      var zeros: seq<byte> := seq(5 - |src|, _ => 0);
      EncodeGroup(src + zeros, TailLength(|src|))
  }

  /** Sixteen random bytes always encode to 26 characters. */
  lemma SixteenBytes(src: seq<byte>)
    requires |src| == 16
    ensures |Encode(src)| == 26
  {
  }
}
