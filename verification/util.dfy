/** Peer-id conversion of the `devp2p` crate (src/util.rs): a peer id is a
    public key's uncompressed serialization with its format prefix removed. */
module Util {
  import opened Wrappers
  import opened Bytes
  import opened Secp256k1

  /** `pk2id`: the 64 bytes X || Y that follow the prefix 0x04. */
  function Pk2Id(pk: PublicKey): (id: H512)
    ensures [TagFull] + id == Serialize(pk)
  {
    Serialize(pk)[1..]
  }

  /** The buffer `id2pk` hands to the parser: `vec![0x04]` with the id appended. */
  function Prefixed(id: H512): (buf: seq<Byte>)
    ensures |buf| == FullLen && buf[0] == TagFull && buf[1..] == id
  {
    [0x04] + id
  }

  /** `id2pk`: what it returns is the key whose id is `id`, and it fails
      exactly when no public key has that id. */
  function Id2Pk(id: H512): (r: Result<PublicKey, Error>)
    ensures r.Ok? ==> Pk2Id(r.value) == id
    ensures r.Err? <==> forall pk: PublicKey :: Pk2Id(pk) != id
  {
    ParseRejectsOnlyNonKeys(Prefixed(id));
    assert forall pk: PublicKey :: Pk2Id(pk) == id <==> Serialize(pk) == Prefixed(id);
    Parse(Prefixed(id))
  }

  /** Taking a key's id and converting it back gives the key (the `pk2id2pk` test). */
  lemma Id2PkPk2Id(pk: PublicKey)
    ensures Id2Pk(Pk2Id(pk)) == Ok(pk)
  {
    assert Prefixed(Pk2Id(pk)) == Serialize(pk);
    ParseSerialize(pk);
  }

  /** Converting an id to a key and back gives the id, whenever the first step
      succeeds: a corollary of the first postcondition of `Id2Pk`, stated on
      its own as the counterpart of `Id2PkPk2Id`. */
  lemma Pk2IdId2Pk(id: H512)
    requires Id2Pk(id).Ok?
    ensures Pk2Id(Id2Pk(id).value) == id
  {
  }
}
