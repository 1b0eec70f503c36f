/** Peer-id conversion of the older `dpt` crate (dpt/src/util.rs), over the
    same uncompressed serialization. */
module DptUtil {
  import opened Wrappers
  import opened Bytes
  import opened Secp256k1
  import Util

  /** `pk2id`: the uncompressed serialization is 65 bytes long (the source's
      debug assertion, proved here), and the id is what follows its first byte. */
  function Pk2Id(pk: PublicKey): (id: H512)
    ensures [TagFull] + id == Serialize(pk)
  {
    var v := Serialize(pk);
    assert |v| == 65;
    v[1..]
  }

  /** `id2pk`: parse 0x04 followed by the 64 id bytes; the result is the key
      with that id, and the parse fails exactly when there is none. */
  function Id2Pk(id: H512): (r: Result<PublicKey, Error>)
    ensures r.Ok? ==> Pk2Id(r.value) == id
    ensures r.Err? <==> forall pk: PublicKey :: Pk2Id(pk) != id
  {
    var buf := [0x04] + id;
    assert |buf| == FullLen;
    ParseRejectsOnlyNonKeys(buf);
    assert forall pk: PublicKey :: Pk2Id(pk) == id <==> Serialize(pk) == buf;
    Parse(buf)
  }

  lemma Id2PkPk2Id(pk: PublicKey)
    ensures Id2Pk(Pk2Id(pk)) == Ok(pk)
  {
    assert [0x04] + Pk2Id(pk) == Serialize(pk);
    ParseSerialize(pk);
  }

  /** The two crates compute the same peer id and the same key. */
  lemma AgreesWithUtil(pk: PublicKey, id: H512)
    ensures Pk2Id(pk) == Util.Pk2Id(pk)
    ensures Id2Pk(id) == Util.Id2Pk(id)
  {
    assert [0x04] + id == Util.Prefixed(id);
  }
}
