/** The part of the secp256k1 library the peer-id conversions rely on: a public
    key is an affine point (x, y) on the curve y^2 = x^3 + 7 over the prime
    field of SEC 2, section 2.4.1, and its uncompressed serialization is the
    octet string 0x04 || X || Y of SEC 1 v2, section 2.3.3, with X and Y the
    32-byte big-endian field elements. */
module Secp256k1 {
  import opened Wrappers
  import opened Bytes

  /** The field prime p = 2^256 - 2^32 - 977. */
  const P: nat := 0xFFFFFFFF_FFFFFFFF_FFFFFFFF_FFFFFFFF_FFFFFFFF_FFFFFFFF_FFFFFFFE_FFFFFC2F

  /** The point-format prefix of an uncompressed serialization. */
  const TagFull: Byte := 0x04

  /** Length of an uncompressed serialization: the prefix and two field elements. */
  const FullLen: nat := 65

  datatype Point = Point(x: nat, y: nat)

  /** A point the library accepts as a public key: both coordinates are field
      elements and the point lies on the curve. (The point at infinity has no
      affine coordinates and so is never a key.) */
  predicate IsPublicKey(p: Point) {
    p.x < P && p.y < P && (p.y * p.y) % P == (p.x * p.x * p.x + 7) % P
  }

  /** The generator point G of SEC 2, section 2.4.1. */
  const G: Point := Point(
    0x79BE667E_F9DCBBAC_55A06295_CE870B07_029BFCDB_2DCE28D9_59F2815B_16F81798,
    0x483ADA77_26A3C465_5DA4FBFC_0E1108A8_FD17B448_A6855419_9C47D08F_FB10D4B8)

  type PublicKey = p: Point | IsPublicKey(p) witness G

  datatype Error = InvalidInputLength | InvalidPublicKey

  lemma {:induction false} Pow256Add(a: nat, b: nat)
    ensures Pow256(a + b) == Pow256(a) * Pow256(b)
    decreases a
  {
    if a > 0 {
      Pow256Add(a - 1, b);
    }
  }

  /** Every field element fits in 32 bytes. */
  lemma FieldElementFits()
    ensures P < Pow256(32)
  {
    assert Pow256(2) == 0x1_0000 by { Pow256Add(1, 1); }
    assert Pow256(4) == 0x1_0000_0000 by { Pow256Add(2, 2); }
    assert Pow256(8) == 0x1_0000_0000_0000_0000 by { Pow256Add(4, 4); }
    assert Pow256(16) == 0x1_0000_0000_0000_0000_0000_0000_0000_0000 by { Pow256Add(8, 8); }
    Pow256Add(16, 16);
  }

  /** `PublicKey::serialize` (uncompressed): the prefix 0x04, then X and Y as
      32-byte big-endian numbers. */
  function Serialize(pk: PublicKey): (s: seq<Byte>)
    ensures |s| == FullLen && s[0] == TagFull
  {
    FieldElementFits();
    [TagFull] + ToBE(pk.x, 32) + ToBE(pk.y, 32)
  }

  /** `PublicKey::parse_slice` / `PublicKey::from_slice` on an uncompressed
      serialization: the length must be 65, the prefix 0x04, both coordinates
      field elements and the point on the curve. Whatever it accepts is the
      serialization of the key it returns. */
  function Parse(s: seq<Byte>): (r: Result<PublicKey, Error>)
    ensures r.Ok? ==> Serialize(r.value) == s
    ensures |s| != FullLen ==> r == Err(InvalidInputLength)
  {
    if |s| != FullLen then Err(InvalidInputLength)
    else if s[0] != TagFull then Err(InvalidPublicKey)
    else
      var p := Point(FromBE(s[1..33]), FromBE(s[33..65]));
      if IsPublicKey(p) then
        ToFromBE(s[1..33]);
        ToFromBE(s[33..65]);
        assert s == [s[0]] + s[1..33] + s[33..65];
        Ok(p)
      else Err(InvalidPublicKey)
  }

  /** Parsing inverts serialization, for every public key. */
  lemma ParseSerialize(pk: PublicKey)
    ensures Parse(Serialize(pk)) == Ok(pk)
  {
    FieldElementFits();
    var s := Serialize(pk);
    assert s[1..33] == ToBE(pk.x, 32);
    assert s[33..65] == ToBE(pk.y, 32);
    FromToBE(pk.x, 32);
    FromToBE(pk.y, 32);
  }

  /** Parsing rejects exactly the strings that are no key's serialization. */
  lemma ParseRejectsOnlyNonKeys(s: seq<Byte>)
    ensures Parse(s).Err? <==> forall pk: PublicKey :: Serialize(pk) != s
  {
    if Parse(s).Err? {
      forall pk: PublicKey ensures Serialize(pk) != s {
        ParseSerialize(pk);
      }
    }
  }
}
