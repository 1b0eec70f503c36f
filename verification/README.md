# RLPx transport codec and peer-id conversion, modelled in Dafny

This project models the core of a Rust devp2p networking stack.

**The RLPx codec** (`src/ecies/proto.rs`). `ECIESCodec` cuts a connection's bytes into
handshake envelopes, frame headers and frame bodies. It has a single state field with
the values `Auth`, `Ack`, `Header` and `Body`. Both the read path (`decode`) and the
write path (`encode`) advance that field.

- In `Auth` and `Ack`, `decode` reads a 2-byte big-endian size prefix, as EIP-8
  defines it. It then waits until the whole envelope, prefix included, is buffered.
- In `Header` it waits for the fixed header length. In `Body` it waits for the body
  length that the last accepted header announced.
- Once the unit is complete, it cuts exactly that many bytes off the front of the
  buffer and hands them to the ECIES engine.

`ECIESStream` wraps the codec. `connect` and `incoming` accept a handshake only on
the right first item. After the handshake, `poll_next` passes on message bodies only.

**Peer-id conversion** (`src/util.rs` and `dpt/src/util.rs`). A peer id is a
secp256k1 public key's uncompressed serialization without its format prefix. That
serialization is defined in section 2.3.3 of SEC 1 v2: `0x04`, then X, then Y.

## Files

- `wrappers.dfy` (`Wrappers`): `Option`, `Result` and `Outcome`.
- `bytes.dfy` (`Bytes`):
  - the byte type and `H512`;
  - fixed-width big-endian encoding, with both round-trip lemmas;
  - the `BytesMut` buffer class, with `SplitTo` and `ExtendFromSlice`.
- `secp256k1.dfy` (`Secp256k1`): the secp256k1 public-key encoding that the peer-id
  conversion relies on.
  - A key is a point on y² = x³ + 7 over the field prime of SEC 2, section 2.4.1.
  - `Serialize` writes `0x04 ‖ X ‖ Y`.
  - `Parse` accepts exactly the 65-byte strings that serialize some key.
  - The library's uncompressed-form behaviour is defined here from SEC 1 and the
    curve equation. The round trip is proved from that definition, with no axioms.
- `util.dfy` (`Util`), `dpt_util.dfy` (`DptUtil`): `pk2id` and `id2pk` of the two
  crates.
- `ecies.dfy` (`Ecies`): the interface of the ECIES engine.
  - The engine's cryptography is abstract. Each operation is a function, held in a
    `Crypto<S>` record, of an opaque secret state `S` and its input.
  - The `parse_*` operations can fail. `create_*` produce bytes. `header_len` is the
    constant 32.
  - `body_len` is the value the last successful `parse_header` stored.
  - `remote_id` is what `parse_auth` learned.
- `proto.dfy` (`Proto`): the codec.
  - `ECIESCodec` is a class with `state` and `ecies` fields.
  - Its `Decode` and `Encode` methods change the codec and a `BytesMut` in place.
  - Each method is proved against a pure specification: `DecodeStep` and
    `EncodeStep`.
  - `Drain` is repeated decoding. The module also holds the lemmas about decoding
    and the stream's accept/reject functions.

## Model

| member | source | states |
|---|---|---|
| `Proto.ECIESCodec.constructor` | src/ecies/proto.rs:52-55 | a new codec holds the engine and starts in `Auth` |
| `Proto.ECIESCodec.NewServer` | src/ecies/proto.rs:51-56 | succeeds exactly when the server engine can be built, and then yields a fresh codec in `Auth`; otherwise it returns the engine's error |
| `Proto.ECIESCodec.NewClient` | src/ecies/proto.rs:59-64 | the same for the client engine, which is given the remote id |
| `Proto.ECIESCodec.Decode` | src/ecies/proto.rs:72-137 | changes the state, the engine and the buffer exactly as `DecodeStep` says, returns its result, and keeps the invariant that `Body` is entered only with a known body length |
| `Proto.DecodeStep` | src/ecies/proto.rs:73-136 | not enough data (fewer than 2 bytes, or fewer than prefix+2, or fewer than `header_len`/`body_len`): `Ok(None)`, with state, engine and buffer unchanged. Otherwise exactly the unit's bytes come off the front and the rest stays in order; in `Auth`/`Ack` that unit is a whole envelope, prefix included. The unit is then handed to `Consume`, and `Body` is entered only with a known body length |
| `Proto.Consume` | src/ecies/proto.rs:88-134 | the engine's part of a decode: the outcome is `Ok` exactly when the `parse_*` of the current state accepts the bytes, though the bytes are consumed either way. Success moves to the successor state and an error leaves the state alone. `Auth` yields only `AuthReceive` with the id `parse_auth` returned and records it as the remote id, `Ack` only `Ack`, `Header` nothing, `Body` only the engine's decrypted `Message` |
| `Proto.EnvelopeLen` | src/ecies/proto.rs:80-81 | an envelope's total size is the prefix read as a big-endian number (`Bytes.FromBE`) plus 2, so between 2 and 65537 |
| `Proto.ECIESCodec.Encode` | src/ecies/proto.rs:144-164 | only appends to the buffer (new contents = old contents + `EncodeStep` output), and updates the state and engine as `EncodeStep` says |
| `Proto.EncodeStep` | src/ecies/proto.rs:145-163 | `Auth` emits `create_auth()` and sets `Ack`. `Ack` emits `create_ack()` and sets `Header`. `Message(d)` emits `create_header(len d)` immediately followed by `create_body(d)` and leaves the state alone. Encoding never changes the remote id or the body length the read path learned |
| `Proto.WaitsForWholeEnvelope` | src/ecies/proto.rs:76-86 | every proper prefix of a complete envelope, including one shorter than the 2-byte prefix, makes a handshake decode wait with nothing changed |
| `Proto.EnvelopeDelivered` | src/ecies/proto.rs:80-89 | when the buffer starts with a well-formed envelope, the decode cuts off exactly that envelope and leaves exactly the bytes behind it |
| `Proto.HeaderAdvancesSilently` | src/ecies/proto.rs:114-124 | an accepted header is consumed and moves the codec to `Body`, yet the call returns `Ok(None)` |
| `Proto.FrameDelivered` | src/ecies/proto.rs:114-134 | a header that announces `n` bytes, followed by an `n`-byte body, decodes in two calls: the header call yields nothing and moves to `Body`; the body call consumes exactly the body and yields the message `parse_body` recovers, failing exactly when `parse_body` does |
| `Proto.DecodeStepExtend` | src/ecies/proto.rs:83-88 | once a unit is complete, bytes appended behind it change nothing about the decode except that they stay in the buffer |
| `Proto.Drain` | src/ecies/proto.rs:72-137 | repeated decoding keeps the codec invariant, and stops without an error only when the next unit is incomplete |
| `Proto.DrainAppend` | src/ecies/proto.rs:72-137 | split-independence: when draining `b1` meets no error, draining `b1 + b2` at once yields the items of `b1` followed by the items, final state, leftover and error of draining `b2` appended to what `b1` left |
| `Proto.DrainShape` | src/ecies/proto.rs:89-134 | from `Auth` (or `Ack`) the first item read is an `AuthReceive` (an `Ack`) and all later items are messages; from `Header` or `Body` every item is a message |
| `Proto.HandshakeRoles` | src/ecies/proto.rs:89-112 | the client reaches `Header` by sending `Auth` (which sets `Ack`) and then reading the `Ack`. The server reaches it by reading an `AuthReceive` and then sending `Ack` |
| `Proto.Connect` | src/ecies/proto.rs:180-205 | succeeds exactly when the codec was built, `Auth` was sent and the first item read is `Ack`, and then reports the dialled id. If the codec could not be built, the result is "invalid handshake". Any other first item, or the end of the stream, is an unexpected message |
| `Proto.Incoming` | src/ecies/proto.rs:209-235 | succeeds exactly when the codec was built, the first item read is `AuthReceive(id)` and sending `Ack` worked, and then reports that `id` as the remote id. Any other first item is an unexpected message |
| `Proto.PollNext` | src/ecies/proto.rs:249-261 | the stream yields `Ok(body)` exactly for `Message(body)`. Every other item, a decode error included, becomes a protocol error carrying it. The end stays the end |
| `Proto.ConnectAcceptsFirstItem` | src/ecies/proto.rs:194-204 | a client codec that has sent `Auth` passes `connect` on the first item it decodes |
| `Proto.IncomingAcceptsFirstItem` | src/ecies/proto.rs:214-223 | a server codec's first item is an `AuthReceive`. `incoming` accepts it with that id, and the id is the one the engine has learned |
| `Proto.SessionPassesMessages` | src/ecies/proto.rs:250-251 | after the handshake, every decoded item reaches the reader as its message body and never as a protocol error |
| `Bytes.BytesMut.SplitTo` | src/ecies/proto.rs:88 | removes the first `at` bytes and returns them; the returned bytes followed by the rest equal the old contents |
| `Bytes.BytesMut.ExtendFromSlice` | src/ecies/proto.rs:149 | appends after the existing bytes |
| `Secp256k1.Serialize` | src/util.rs:104 | the uncompressed serialization is 65 bytes and starts with `0x04` |
| `Secp256k1.Parse` | src/util.rs:112 | whatever it accepts is the serialization of the key it returns; a length other than 65 is an input-length error |
| `Secp256k1.ParseSerialize` | src/util.rs:121-126 | parsing inverts serialization for every public key |
| `Secp256k1.ParseRejectsOnlyNonKeys` | src/util.rs:112 | the parser rejects exactly the strings that are no key's serialization |
| `Util.Pk2Id` | src/util.rs:103-105 | the id is the serialization with exactly its first byte, `0x04`, dropped (64 bytes) |
| `Util.Prefixed` | src/util.rs:108-111 | the buffer handed to the parser is 65 bytes: `0x04` then the 64 id bytes in order |
| `Util.Id2Pk` | src/util.rs:107-113 | a returned key has exactly the given id. It fails exactly when no public key has that id, so there is no other failure path |
| `Util.Id2PkPk2Id` | src/util.rs:121-126 | `id2pk(pk2id(pk)) == Ok(pk)` for every public key |
| `Util.Pk2IdId2Pk` | src/util.rs:107-113 | `pk2id(id2pk(id)) == id` whenever `id2pk` succeeds |
| `DptUtil.Pk2Id` | dpt/src/util.rs:13-17 | the serialization is 65 bytes (the debug assertion, proved) and the id is what follows its first byte |
| `DptUtil.Id2Pk` | dpt/src/util.rs:19-25 | the parser gets `0x04` then the id. A returned key has that id, and the call fails exactly when no key has it |
| `DptUtil.Id2PkPk2Id` | dpt/src/util.rs:13-25 | `id2pk(pk2id(pk)) == Ok(pk)` for every public key |
| `DptUtil.AgreesWithUtil` | dpt/src/util.rs:13-25 | both crates compute the same id for every key and the same result for every id |

Two behaviours of `decode` worth knowing:

- `decode` returns `Ok(None)` both when a unit is incomplete and after it has
  consumed a header and moved to `Body` (`Proto.HeaderAdvancesSilently`).
- `decode` accepts every u16 size prefix and only waits for that many bytes. Only
  `parse_auth`/`parse_ack` can reject an envelope.

## Left out

- The ECIES engine (src/ecies/algorithm.rs is not part of this model): ECDH, the
  ECIES envelopes, AES-CTR, the Keccak MAC accumulators and the signatures. The
  engine is abstract, and the model keeps only what the codec relies on:
  - which operations can fail;
  - that a successful `parse_auth` sets the remote id;
  - that a successful `parse_header` sets the body length (the number of wire bytes
    `body_len()` reports);
  - that `header_len()` is 32.

  A failed `parse_*` may still change the engine's secret state, which the model
  allows.
- Whether `create_auth`/`create_ack` really produce well-formed envelopes is the
  engine's business. `Proto.EnvelopeDelivered` states what the codec does with one
  that is.
- Engine construction (`ECIES::new_server`/`new_client`) is abstract. Only its
  success or its error is modelled.
- The async plumbing of `ECIESStream` is I/O and task scheduling: `Framed`,
  `try_next`, `send`, the `Sink` methods and the `#[instrument]`/tracing output.
  `Connect`, `Incoming` and `PollNext` take the outcome of each awaited step as a
  parameter.
- The error messages are not modelled, only the kind of each error.
- `Proto.Drain`: there is no loop in the source. `Drain` describes what a caller
  sees when it calls `decode` repeatedly while decoding makes progress. It does not
  model `Framed`'s own policy for when to call `decode` again.
- `TaskHandle`, `TaskGroup`, `Runtime` and `Shutdown` (src/util.rs:18-81) are left
  out. They are concurrency: task spawning, abort handles, a mutex.
- `keccak256`, `sha256` and `hmac_sha256` (src/util.rs:83-101, dpt/src/util.rs:6-11)
  are left out. They are thin wrappers over hash libraries.
- src/disc/mod.rs is left out. It is an async discovery trait, and its only logic
  returns whichever entry an unordered map yields first.
- `Secp256k1.Parse`: models only the uncompressed `0x04` form, which is the only
  one `id2pk` ever passes. The compressed 33-byte form and the hybrid `0x06`/`0x07`
  prefixes that the libraries also accept are not modelled.
- Rust panics that cannot happen are not modelled. `split_to` beyond the buffer
  cannot happen, because every split is guarded. `body_len()` before any header
  cannot happen either: the codec invariant rules it out.
