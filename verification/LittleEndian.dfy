/** Fixed-width little-endian integers, the native byte order of every supported target. */
module LittleEndian {
  import opened Prelude

  function Pow256(width: nat): (r: nat)
    ensures r > 0
  {
    if width == 0 then 1 else 256 * Pow256(width - 1)
  }

  function Encode(value: nat, width: nat): (bytes: Bytes)
    ensures |bytes| == width
  {
    if width == 0 then [] else [value % 256] + Encode(value / 256, width - 1)
  }

  function Decode(bytes: Bytes): nat
  {
    if bytes == [] then 0 else bytes[0] + 256 * Decode(bytes[1..])
  }

  /** Every value that fits the width survives the round trip. */
  lemma {:induction false} DecodeEncode(value: nat, width: nat)
    requires value < Pow256(width)
    ensures Decode(Encode(value, width)) == value
  {
    if width == 0 {
    } else {
      DecodeEncode(value / 256, width - 1);
      assert Encode(value, width)[1..] == Encode(value / 256, width - 1);
    }
  }

  /** Decoding stays within the width, and encoding undoes it. */
  lemma {:induction false} EncodeDecode(bytes: Bytes)
    ensures Decode(bytes) < Pow256(|bytes|)
    ensures Encode(Decode(bytes), |bytes|) == bytes
  {
    if bytes == [] {
    } else {
      EncodeDecode(bytes[1..]);
      LowByte(bytes[0], Decode(bytes[1..]));
      assert bytes == [bytes[0]] + bytes[1..];
    }
  }

  lemma LowByte(low: Byte, high: nat)
    ensures (low + 256 * high) % 256 == low && (low + 256 * high) / 256 == high
  {
  }

  /** The low bytes hold the remainder: a small value can be read from them alone. */
  lemma {:induction false} DecodeSplit(bytes: Bytes, n: nat)
    requires n <= |bytes|
    ensures Decode(bytes) == Decode(bytes[..n]) + Pow256(n) * Decode(bytes[n..])
  {
    if n == 0 {
      assert bytes[0..] == bytes;
    } else {
      DecodeSplit(bytes[1..], n - 1);
      assert bytes[1..][..n - 1] == bytes[..n][1..] && bytes[1..][n - 1..] == bytes[n..];
      Distribute(Decode(bytes[..n][1..]), Pow256(n - 1), Decode(bytes[n..]));
    }
  }

  lemma Distribute(low: nat, power: nat, high: nat)
    ensures 256 * (low + power * high) == 256 * low + 256 * power * high
  {
  }
}
