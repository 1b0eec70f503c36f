/** Byte strings, fixed-width hashes and the growable buffer of the `bytes`
    crate, together with big-endian integer encoding. */
module Bytes {

  type Byte = b: int | 0 <= b < 256

  /** A 64-byte hash value (`H512`), the shape of a peer identifier. */
  type H512 = s: seq<Byte> | |s| == 64 witness seq(64, _ => 0)

  function Pow256(n: nat): (p: nat)
    ensures p > 0
  {
    if n == 0 then 1 else 256 * Pow256(n - 1)
  }

  /** The `n`-byte big-endian encoding of `x`, most significant byte first. */
  function ToBE(x: nat, n: nat): (s: seq<Byte>)
    requires x < Pow256(n)
    ensures |s| == n
    decreases n
  {
    if n == 0 then []
    else
      assert x / 256 < Pow256(n - 1) by { DivBound(x, Pow256(n - 1)); }
      ToBE(x / 256, n - 1) + [x % 256]
  }

  /** The number a big-endian byte string denotes; it always fits its width. */
  function FromBE(s: seq<Byte>): (x: nat)
    ensures x < Pow256(|s|)
    decreases |s|
  {
    if s == [] then 0
    else
      var hi := FromBE(s[..|s| - 1]);
      MulBound(hi, s[|s| - 1], Pow256(|s| - 1));
      hi * 256 + s[|s| - 1]
  }

  lemma DivBound(x: nat, p: nat)
    requires x < 256 * p
    ensures x / 256 < p
  {
  }

  lemma MulBound(hi: nat, lo: Byte, p: nat)
    requires hi < p
    ensures hi * 256 + lo < 256 * p
  {
    assert hi * 256 <= (p - 1) * 256;
  }

  /** Decoding a big-endian encoding gives back the number. */
  lemma {:induction false} FromToBE(x: nat, n: nat)
    requires x < Pow256(n)
    ensures FromBE(ToBE(x, n)) == x
    decreases n
  {
    if n > 0 {
      DivBound(x, Pow256(n - 1));
      var s := ToBE(x, n);
      assert s[..n - 1] == ToBE(x / 256, n - 1);
      FromToBE(x / 256, n - 1);
    }
  }

  /** Encoding the number a byte string denotes, at that string's width,
      gives back the byte string. */
  lemma {:induction false} ToFromBE(s: seq<Byte>)
    ensures ToBE(FromBE(s), |s|) == s
    decreases |s|
  {
    if s != [] {
      var n := |s|;
      var hi := FromBE(s[..n - 1]);
      assert FromBE(s) == hi * 256 + s[n - 1];
      assert FromBE(s) / 256 == hi && FromBE(s) % 256 == s[n - 1];
      ToFromBE(s[..n - 1]);
      assert s == s[..n - 1] + [s[n - 1]];
    }
  }

  /** The growable byte buffer (`BytesMut`) a codec reads from and writes to. */
  class BytesMut {
    var bytes: seq<Byte>

    constructor (init: seq<Byte>)
      ensures bytes == init
    {
      bytes := init;
    }

    /** Removes the first `at` bytes and returns them; the rest stays, in order. */
    method SplitTo(at: nat) returns (front: seq<Byte>)
      requires at <= |bytes|
      modifies this
      ensures front + bytes == old(bytes)
      ensures |front| == at
    {
      front := bytes[..at];
      bytes := bytes[at..];
    }

    /** Appends `data` after the bytes already buffered. */
    method ExtendFromSlice(data: seq<Byte>)
      modifies this
      ensures bytes == old(bytes) + data
    {
      bytes := bytes + data;
    }
  }
}
