# Pyth Lazer: a verified model

This project models the parts of Pyth Lazer on which the trustworthiness of its price updates rests, and proves
what holds over all inputs and all runs.

* **Governance on Stellar.** The Wormhole executor contract (`Vaa`, `Governance`, `Executor`) and the Lazer verifier
  contract (`Verifier`) live on one ledger (`Ledger`): anyone submits VAAs, time passes, storage entries are archived and
  restored, and failed transactions are rolled back. `Custody` proves what every run keeps of the guardian sets,
  `Replay` that actions are executed at most once and what the signer map therefore is, `Acceptance` exactly which
  bytes the entry points accept. `EndToEnd` joins them: on whose authority an update is verified, and what its
  consumer reads. `Archival` shows what archival of the signer map can cost.
* **Wire formats.** The payload in both byte orders (`Payload`), the independent Stellar decoder (`StellarSdk`), the
  JSON view of the same data (`Views`), the envelopes (`Messages`), and length-prefixed frames with a back-patched
  header (`Frames`), over small shared codecs (`Bytes`, `Codec`).
* **Solana.** The fixed signer table as a map (`SolanaTable`) and the offset arithmetic that ties a message to what
  the ed25519 program checked (`SolanaVerify`).
* **Agent and client.** Batching and deduplication (`Dedup`), the relayer pool over all interleavings (`Relayer`), and
  reconnect-and-replay of Hermes subscriptions (`Hermes`).
* **Dynamic values.** Recursive protobuf conversion with the exact bound of its times (`DynamicValue`).

Code that changes things step by step is modelled by classes and methods with loops, proved against specification
functions; the theorems are about those functions and about runs of them.

Outside functions are parameters: `keccak256`, `secp256k1_recover`, strkey and XDR decoding are fields of `Host`; the
ed25519 check, the JSON library, the clock, the cache's expiry, the order in which a hash map lists its values, the
backoff durations and the outcome of each send are arguments or actions. A storage entry is `Absent`, `Live` or
`Archived`; an archived entry reads as missing and can be restored. Replacing a contract's code ends a run.

Some properties do not hold of the code as it stands. Each has a concrete witness and an exact condition:

* An unsubscribe request that spells a feed differently from the stored subscription leaves it to be replayed
  (`Hermes.OtherSpellingIsResubscribed`, `Hermes.FaithfulIffSpelled`).
* A failed send to the relayer sessions is only logged, after the cache was filled, so the data is not sent again
  (`Dedup.SwallowedSendLosesData`, `Dedup.RunDeliversExactly`).
* A governance write that finds the signer map archived forgets the other signers (`Archival.SignerForgotten`,
  `Replay.SignerMapExactly`; one write: `Verifier.ArchivedMapWrite`).
* Times near the upper bound can be read but not read again after being written (`DynamicValue.AcceptedTimeLost`,
  `DynamicValue.ReadWriteRead`). A comment at sdk/rust/protocol/src/time.rs:222 says the conversion to seconds cannot
  overflow, which is true; the multiplication on the way back can.

`dafny verify dfyconfig.toml` checks the whole project. Lemmas carry `{:induction false}` where the proof by induction is
written out, and where automatic induction would otherwise apply without being needed.

## Model

| member | source | states |
|---|---|---|
| `Custody.ChainOfCustody` | contracts/stellar/contracts/wormhole-executor-stellar/src/lib.rs:90-191 | In every run from deployment, the set at each index above the first was installed by an upgrade VAA of the emitter the deployer configured, which a quorum of the set before it certified while that set was current, and that set was then retired until exactly a day later; the first set is the constructor's. |
| `Custody.RunKeepsStore` | contracts/stellar/contracts/wormhole-executor-stellar/src/guardian.rs:221-249 | Every reachable store holds exactly the indices from the first to the current one; only the current set has no expiry; retired expiries do not decrease with the index and lie at most the grace window ahead; archiving and restoring entries does not disturb this. |
| `Custody.RunExtends` | contracts/stellar/contracts/wormhole-executor-stellar/src/guardian.rs:221-249 | Between any two moments of a run no stored key changes, and a retired set with its expiry never changes at all. |
| `Custody.UsableSetsAreASuffix` | contracts/stellar/contracts/wormhole-executor-stellar/src/vaa.rs:160-169 | At every moment the unexpired sets are a contiguous interval of indices that ends at the current one, which has no expiry; above any set that can verify a VAA, exactly the archived ones cannot. |
| `Custody.AcceptedQuorumsIntersect` | contracts/stellar/contracts/wormhole-executor-stellar/src/vaa.rs:171-229 | Any two VAAs a run accepts under one set index, at whatever two moments, share more than a third of that set's guardians. |
| `Custody.UpdateIsSuccession` | contracts/stellar/contracts/wormhole-executor-stellar/src/lib.rs:90-191 | A successful guardian-set update was authorized by the current set and is exactly the retirement of that set and the installation of the listed keys. |
| `Custody.StepKeepsStore` | contracts/stellar/contracts/wormhole-executor-stellar/src/lib.rs:90-271 | Every transaction and host event keeps the store invariant and everything stored before it. |
| `Acceptance.UpdateIffUpgrades` | contracts/stellar/contracts/wormhole-executor-stellar/src/lib.rs:90-191 | `update_guardian_set` succeeds if and only if its input encodes a VAA of the configured emitter, certified by the current, unexpired set, whose payload is an upgrade message for this chain or all chains to the next index, at a time whose grace window fits 64 bits and with the watermark entry present; the new storage is given exactly. |
| `Acceptance.ExecutionIffOrders` | contracts/stellar/contracts/wormhole-executor-stellar/src/lib.rs:217-268 | `execute_governance_action` reaches its dispatch if and only if its input encodes a certified VAA of the configured owner, with a sequence above a live watermark, whose payload routes that call through this executor on this chain; only the watermark moves. |
| `Acceptance.UpgradeIffInstalls` | contracts/stellar/contracts/wormhole-executor-stellar/src/lib.rs:125-185 | The upgrade parser accepts exactly the upgrade messages and reads exactly the keys they list, ignoring bytes after the last key. |
| `Acceptance.AdmissionIffAdmitted` | contracts/stellar/contracts/wormhole-executor-stellar/src/vaa.rs:59-232 | Parsing and verification together accept exactly the encodings of VAAs certified by the stored, unexpired set they name. |
| `Acceptance.DispatchedIffCommands` | contracts/stellar/contracts/wormhole-executor-stellar/src/lib.rs:246-268 | A payload is turned into a host call if and only if it is the encoding of an action with a well-formed function name and decodable arguments, and then into that call. |
| `Replay.ExecutedAtMostOnce` | contracts/stellar/contracts/wormhole-executor-stellar/src/guardian.rs:187-218 | Over any run from deployment the executed sequences strictly increase, so no two executions share a VAA body, whatever signatures or guardian set came with it and whatever was archived or restored in between. |
| `Replay.MissingWatermarkFreezes` | contracts/stellar/contracts/wormhole-executor-stellar/src/guardian.rs:187-300 | Over any run in which the watermark entry is missing and not restored, nothing is executed and no guardian set is installed or changed, whatever is submitted. |
| `Replay.SignersAreFold` | contracts/stellar/contracts/pyth-lazer-stellar/src/lib.rs:25-70 | In every reachable state of the two contracts the signer map is the fold of the constructor's signer and of the executed `update_trusted_signer` calls, in increasing sequence order. |
| `Replay.LastWriteWins` | contracts/stellar/contracts/pyth-lazer-stellar/src/state.rs:67-75 | A signer named by some executed call is in the map if and only if the last such call set a non-zero expiry and no later write found the map archived; it then has that expiry. |
| `Replay.UnwrittenSigner` | contracts/stellar/contracts/pyth-lazer-stellar/src/state.rs:67-75 | A signer no executed call names keeps what the constructor gave it exactly as long as no write finds the map archived. |
| `Replay.SignerMapExactly` | contracts/stellar/contracts/pyth-lazer-stellar/src/state.rs:41-75 | In every reachable state, exactly which signers the map holds with which expiry, over all executed calls and the constructor's signer. |
| `Archival.ArchivedWriteForgets` | contracts/stellar/contracts/pyth-lazer-stellar/src/state.rs:41-75 | At every deployment with an initial signer: if its map is archived and an accepted action then writes another signer, the initial signer is gone, and the updates it signed, verified before, are refused as not trusted. |
| `Archival.SignerForgotten` | contracts/stellar/contracts/pyth-lazer-stellar/src/state.rs:41-75 | Such a deployment, action and update, written out: the failure occurs, in two steps that do not name the signer. |
| `EndToEnd.VerifiedIffEnvelope` | contracts/stellar/contracts/pyth-lazer-stellar/src/verify.rs:23-87 | `verify_update` returns a payload if and only if the bytes are the complete little-endian ECDSA envelope of that payload, and the signature over its hash recovers to a public key whose x coordinate, behind the parity of its y, is a trusted, unexpired signer. |
| `EndToEnd.ActionExactly` | contracts/stellar/contracts/wormhole-executor-stellar/src/lib.rs:217-271 | In every reachable state `execute_governance_action` goes through if and only if its input is an order that can be carried out: a signer update writes exactly that signer, a code upgrade of either contract ends the run, a call to a third contract changes neither contract, and a call to the executor itself or any other call to the verifier traps; apart from that only the watermark moves. |
| `EndToEnd.VerifiedIffAuthorized` | contracts/stellar/contracts/pyth-lazer-stellar/src/verify.rs:23-87 | In every state reachable from a deployment, with entries archived and restored at any moment, `verify_update` returns a payload if and only if the signer map is live, the bytes are the complete envelope of the payload, and the signing key is authorized beyond the current time: by the last executed governance action naming it, which the owner the deployer configured ordered under a quorum of a usable guardian set that descends from the deployed keys, or by the deployer with no such action; no later write having found the map archived. |
| `EndToEnd.SignedUpdateIsDelivered` | contracts/stellar/sdk/rust/src/payload.rs:278-307 | An update built from aggregated data for a channel of the protocol, written, wrapped and signed by a trusted key is verified, and the consumer's decoder reads that channel and exactly the fields of the JSON form from what is returned. |
| `Vaa.ParseVaa` | contracts/stellar/contracts/wormhole-executor-stellar/src/vaa.rs:59-147 | The byte-by-byte parser with its buffers computes `DecodeVaa`, on every input. |
| `Vaa.ParseSignatures` | contracts/stellar/contracts/wormhole-executor-stellar/src/vaa.rs:83-103 | The signature loop fills its buffers with the entries at their offsets. |
| `Vaa.ParseBody` | contracts/stellar/contracts/wormhole-executor-stellar/src/vaa.rs:105-146 | The body fields are read from the bytes after the signatures. |
| `Vaa.ParseOfEncoding` | contracts/stellar/contracts/wormhole-executor-stellar/src/vaa.rs:59-147 | Parsing an encoded VAA gives it back. |
| `Vaa.EncodingOfParse` | contracts/stellar/contracts/wormhole-executor-stellar/src/vaa.rs:59-147 | Re-encoding anything the parser accepts gives back the very input, and every body field acted on is a function of the very bytes that are hashed. |
| `Vaa.VerifyVaa` | contracts/stellar/contracts/wormhole-executor-stellar/src/vaa.rs:160-232 | The one-pass loop that remembers only the last guardian index computes `Verification`. |
| `Vaa.VerifiedIffCertified` | contracts/stellar/contracts/wormhole-executor-stellar/src/vaa.rs:160-232 | Verification succeeds if and only if the stored set exists, the time is before its expiry if it has one, and at least two thirds plus one of its guardians signed the double hash of the body at strictly ascending indices. |
| `Vaa.QuorumIsTwoThirdsPlusOne` | contracts/stellar/contracts/wormhole-executor-stellar/src/guardian.rs:271-273 | The fixed-point formula is floor(2n/3) + 1 wherever the 32-bit product does not overflow; it is at most n exactly for non-empty sets, and more than two thirds of n. |
| `Vaa.QuorumsIntersect` | contracts/stellar/contracts/wormhole-executor-stellar/src/vaa.rs:171-229 | Two certificates of one set share more than a third of its guardians. |
| `Bytes.BeReadersAgree` | contracts/stellar/contracts/wormhole-executor-stellar/src/bytes.rs:13-33 | The shift-and-or big-endian readers are the positional value of the bytes, and fail exactly past the end. |
| `Bytes.LeReadersAgree` | contracts/stellar/contracts/pyth-lazer-stellar/src/verify.rs:110-120 | The little-endian readers are the positional value of the bytes, and fail exactly past the end. |
| `Executor.ExecutorContract.Initialize` | contracts/stellar/contracts/wormhole-executor-stellar/src/guardian.rs:56-110 | `initialize` succeeds if and only if the contract is fresh and the key list is not empty; it then stores the given configuration, one set without an expiry, its index and a zero watermark, and otherwise changes nothing. |
| `Executor.ExecutorContract.StoreGuardianSet` | contracts/stellar/contracts/wormhole-executor-stellar/src/guardian.rs:221-300 | Retires the set before the new index if it can be read, installs the new set and index, and traps where the expiry overflows or where the lifetime of a missing watermark entry is to be extended. |
| `Executor.ExecutorContract.UpdateGuardianSet` | contracts/stellar/contracts/wormhole-executor-stellar/src/lib.rs:90-191 | The storage and the error after `update_guardian_set` are those of `GuardianSetUpdate`. |
| `Executor.ExecutorContract.PrepareGovernanceAction` | contracts/stellar/contracts/wormhole-executor-stellar/src/lib.rs:217-261 | The watermark, the VAA and the call to dispatch are those of `GovernanceExecution`, in the order of the checks of the entry point. |
| `Executor.ExecutorContract.Admit` | contracts/stellar/contracts/wormhole-executor-stellar/src/lib.rs:91-96 | Parses and verifies against the stored set named by the VAA. |
| `Executor.ParseUpgrade` | contracts/stellar/contracts/wormhole-executor-stellar/src/lib.rs:125-185 | The upgrade payload parser computes `DecodeUpgrade`. |
| `Executor.ParseKeys` | contracts/stellar/contracts/wormhole-executor-stellar/src/lib.rs:176-185 | The two nested loops collect the twenty-byte keys in order. |
| `Executor.DecodeFunctionSymbol` | contracts/stellar/contracts/wormhole-executor-stellar/src/lib.rs:279-290 | Accepts exactly one to 32 letters, digits and underscores. |
| `Governance.ParsePtgm` | contracts/stellar/contracts/wormhole-executor-stellar/src/governance.rs:100-229 | The parser with its moving offset computes `DecodePtgm`. |
| `Governance.ParseAction` | contracts/stellar/contracts/wormhole-executor-stellar/src/governance.rs:178-228 | The action part, the digest filled byte by byte. |
| `Governance.PtgmOfEncoding` | contracts/stellar/contracts/wormhole-executor-stellar/src/governance.rs:100-229 | Every encoded action decodes to itself. |
| `Governance.EncodingOfPtgm` | contracts/stellar/contracts/wormhole-executor-stellar/src/governance.rs:100-229 | Everything the parser accepts is the encoding of what it returns, for this chain and this executor. |
| `Governance.SymbolExactly` | contracts/stellar/contracts/wormhole-executor-stellar/src/lib.rs:279-290 | A function name is accepted if and only if it is one to 32 letters, digits and underscores. |
| `Ledger.Chain.Upgrade` | contracts/stellar/contracts/wormhole-executor-stellar/src/lib.rs:90-191 | One transaction on the contract objects is one step of the run, with the host's rollback. |
| `Ledger.Chain.Act` | contracts/stellar/contracts/wormhole-executor-stellar/src/lib.rs:217-271 | The same for a governance action with its cross-contract call, rolled back in both contracts when it traps. |
| `Ledger.Chain.Dispatch` | contracts/stellar/contracts/wormhole-executor-stellar/src/lib.rs:257-268 | The cross-contract call on the verifier object is `Invocation`. |
| `Ledger.Chain.CallUpdateTrustedSigner` | contracts/stellar/contracts/pyth-lazer-stellar/src/lib.rs:60-70 | A direct call by any principal is the corresponding step. |
| `Ledger.DeployedExactly` | contracts/stellar/contracts/wormhole-executor-stellar/src/guardian.rs:56-110 | The two constructors, run on fresh storage whatever configuration stood there, lead exactly to the world that holds the deployer's configuration, keys, first index, zero watermark and initial signer. |
| `Ledger.Deploy` | contracts/stellar/contracts/pyth-lazer-stellar/src/lib.rs:25-44 | Deploying the two contract objects reaches such a world if and only if the key list is not empty. |
| `Ledger.CallsExactly` | contracts/stellar/contracts/pyth-lazer-stellar/src/lib.rs:60-82 | A dispatched call is a signer update or a code upgrade of the verifier exactly when it spells that name and passes a 33-byte key and a 64-bit expiry, or one 32-byte hash. |
| `Verifier.VerifierContract.Construct` | contracts/stellar/contracts/pyth-lazer-stellar/src/lib.rs:25-40 | The storage after the constructor; a second call is refused and changes nothing. |
| `Verifier.VerifierContract.UpdateTrustedSigner` | contracts/stellar/contracts/pyth-lazer-stellar/src/lib.rs:60-70 | Only the configured executor can write; the map then has exactly that write. |
| `Verifier.VerifierContract.SetTrustedSigner` | contracts/stellar/contracts/pyth-lazer-stellar/src/state.rs:67-75 | Reads the map, sets or, for expiry zero, removes the signer, writes it back. |
| `Verifier.VerifierContract.VerifyUpdate` | contracts/stellar/contracts/pyth-lazer-stellar/src/verify.rs:23-87 | The checks in their order, with the copying loops, compute `UpdateVerification`. |
| `Verifier.CompressPubkey` | contracts/stellar/contracts/pyth-lazer-stellar/src/verify.rs:94-107 | The loop builds the compressed form of section 2.3.3 of SEC 1: 2 or 3 by the parity of the last byte, then bytes 1 to 32. |
| `Verifier.CompressedExactly` | contracts/stellar/contracts/pyth-lazer-stellar/src/verify.rs:94-107 | The compressed form is the only 33 bytes with the x coordinate behind the parity of y. |
| `Verifier.CompressAlike` | contracts/stellar/contracts/pyth-lazer-stellar/src/verify.rs:94-107 | Two keys compress alike if and only if they share the x coordinate and the parity of y. |
| `Verifier.ArchivedMapWrite` | contracts/stellar/contracts/pyth-lazer-stellar/src/state.rs:41-75 | A write keeps the other signers if and only if the map was live or held no other signer: an archived map is read as empty and overwritten. |
| `Payload.PayloadRoundTrip` | sdk/rust/protocol/src/payload/standard.rs:153-303 | In both byte orders, for at most 255 feeds and 255 properties each, decoding an encoding followed by any bytes gives back the payload and the position after it. |
| `Payload.EncodingIsPrefixFree` | sdk/rust/protocol/src/payload/standard.rs:153-219 | No encoding is a proper prefix of another, and two payloads with one encoding are equal. |
| `Payload.ValueAt` | sdk/rust/protocol/src/payload/standard.rs:245-295 | Each of the thirteen property values is read back from wherever its encoding stands. |
| `Payload.FirstBytes` | sdk/rust/protocol/src/payload/standard.rs:153-165 | In either byte order a payload starts with the four bytes of its magic, the time, the channel id and the feed count. |
| `Payload.ChannelIdExactly` | sdk/rust/protocol/src/api.rs:321-347 | The two conversions between channels and ids are inverse to each other, and the ids 1 to 4 stand for real time and the rates of 50, 200 and 1000 milliseconds. |
| `Payload.Serialize` | sdk/rust/protocol/src/payload/standard.rs:153-219 | The writes in order produce `EncodePayload`, failing exactly when a count does not fit one byte. |
| `Payload.Deserialize` | sdk/rust/protocol/src/payload/standard.rs:229-303 | The cursor and its two nested loops compute `ReadPayload`. |
| `Payload.DeserializeFeed` | sdk/rust/protocol/src/payload/standard.rs:238-296 | One turn of the outer loop, with the inner loop over properties. |
| `StellarSdk.DecodersAgree` | contracts/stellar/sdk/rust/src/payload.rs:161-307 | For every byte string the Stellar decoder returns an update if and only if the protocol decoder succeeds, consumes all bytes and finds a channel the protocol knows; the update then has that channel, that timestamp, and for each feed the in-order fold of its decoded property values. |
| `StellarSdk.ParsePayload` | contracts/stellar/sdk/rust/src/payload.rs:278-307 | The decoder driving a mutable reader computes `ParsePayloadOf`. |
| `StellarSdk.ParseFeeds` | contracts/stellar/sdk/rust/src/payload.rs:291-296 | Its loop over feeds. |
| `StellarSdk.ParseFeed` | contracts/stellar/sdk/rust/src/payload.rs:161-255 | The property loop that updates a feed's fields in place. |
| `StellarSdk.ParseProperty` | contracts/stellar/sdk/rust/src/payload.rs:182-251 | One property: an absent zero-coded value clears its field, an absent flagged value leaves it alone. |
| `StellarSdk.ReadOptionalI64` | contracts/stellar/sdk/rust/src/payload.rs:152-159 | Zero stands for an absent value. |
| `StellarSdk.Reader.ReadLeU64` | contracts/stellar/sdk/rust/src/payload.rs:116-126 | The accumulating loop reads the little-endian value and moves the offset, or fails without moving it. |
| `StellarSdk.Reader.ReadLeU32` | contracts/stellar/sdk/rust/src/payload.rs:104-114 | The same for four bytes. |
| `StellarSdk.Reader.ReadLeU16` | contracts/stellar/sdk/rust/src/payload.rs:94-102 | The same for two bytes. |
| `StellarSdk.Reader.ReadU8` | contracts/stellar/sdk/rust/src/payload.rs:81-88 | The same for one byte. |
| `StellarSdk.SessionsAgree` | sdk/rust/protocol/src/api.rs:1229-1254 | The session codes read by the Stellar decoder are the protocol's session codes. |
| `StellarSdk.ChannelsAgree` | contracts/stellar/sdk/rust/src/payload.rs:129-137 | The Stellar decoder knows a channel id if and only if the protocol does, and reads the same rate from it. |
| `Views.ThreeViewsAgree` | sdk/rust/protocol/src/payload/standard.rs:52-219 | For all aggregated data, every channel of the protocol and every property list within the one-byte counts, Stellar-parsing the signed payload gives that channel and the fields of the JSON form, and the signed values can be rebuilt from that form. |
| `Views.NewParsedFeed` | sdk/rust/protocol/src/api.rs:694-759 | Assigning the requested fields one by one gives each field exactly if its property was requested. |
| `Views.RebuiltIsSigned` | sdk/rust/protocol/src/payload/standard.rs:52-82 | A requested property's value rebuilt from the JSON form is the value in the signed payload. |
| `Views.FoldIsParsedView` | sdk/rust/protocol/src/api.rs:694-759 | The in-order fold of a feed's signed values is its JSON form, whatever the order and repetition of properties. |
| `Messages.MessageRoundTrip` | sdk/rust/protocol/src/message.rs:42-68 | Every message is read back from its encoding through the dispatch on its magic, over any JSON library whose reader undoes its writer. |
| `Messages.Serialize` | sdk/rust/protocol/src/message.rs:43-55 | What is written for a message is read back as that message, and writing fails exactly when an envelope's payload is too long for its 16-bit length. |
| `Messages.EvmRoundTrip` | sdk/rust/protocol/src/message.rs:78-109 | The EVM envelope is read back from the start of any byte string. |
| `Messages.SolanaRoundTrip` | sdk/rust/protocol/src/message.rs:119-151 | The same for the Solana envelope. |
| `Messages.LeEcdsaRoundTrip` | sdk/rust/protocol/src/message.rs:161-192 | The same for the little-endian ECDSA envelope. |
| `Messages.LeUnsignedRoundTrip` | sdk/rust/protocol/src/message.rs:200-222 | The same for the unsigned envelope. |
| `Messages.EnvelopeOfRead` | sdk/rust/protocol/src/message.rs:88-109 | What an envelope reader accepts is exactly the encoding of what it returns, up to the end it reports. |
| `Messages.FirstBytes` | sdk/rust/protocol/src/message.rs:14-31 | The first four bytes of each of the five kinds of message on the wire. |
| `Frames.StandardUpdateRoundTrip` | sdk/rust/protocol/src/binary_update.rs:20-69 | For every subscription id and every message list whose encodings each fit in 65535 bytes, decoding what was written into an empty buffer gives the update back. |
| `Frames.UpdateRoundTrip` | sdk/rust/protocol/src/binary_update.rs:20-69 | The same over any message codec whose reader undoes its writer. |
| `Frames.Buffer.WriteWithLenHeader` | sdk/rust/protocol/src/binary_update.rs:74-89 | Appends one frame, patching only its own two length bytes; keeps every earlier byte, also on failure; fails exactly when the message cannot be encoded or its encoding is longer than 65535 bytes. |
| `Frames.Buffer.WriteFrames` | sdk/rust/protocol/src/binary_update.rs:24-26 | The loop appends the frames in order. |
| `Frames.Buffer.Serialize` | sdk/rust/protocol/src/binary_update.rs:20-28 | Header and frames are appended to what the buffer held. |
| `Frames.Deserialize` | sdk/rust/protocol/src/binary_update.rs:30-69 | The loop over a position computes `DecodeUpdate`. |
| `Frames.NextFrame` | sdk/rust/protocol/src/binary_update.rs:52-63 | One turn of that loop. |
| `Frames.DecodedExactly` | sdk/rust/protocol/src/binary_update.rs:30-69 | The decoder returns an update if and only if the data are, from the first byte to the last, 73 77 88 1B, the subscription id and length-prefixed bodies that decode to its messages. |
| `SolanaTable.TableRefinesMap` | contracts/solana/programs/pyth-lazer-solana-contract/src/lib.rs:85-109 | Over any sequence of updates from the empty table, the used prefix has distinct keys and fits the capacity, the rest is blank, the table is the map the same calls build, and `is_trusted` is an unexpired lookup in that map. |
| `SolanaTable.UpdateRefinesMap` | contracts/solana/programs/pyth-lazer-solana-contract/src/lib.rs:303-354 | Each call is the matching insertion, change or deletion on the map, and fails exactly when the map operation is not possible. |
| `SolanaTable.TrustedIsLookup` | contracts/solana/programs/pyth-lazer-solana-contract/src/lib.rs:93-109 | The search of the used prefix is a map lookup with an expiry in the future. |
| `SolanaTable.Storage.Update` | contracts/solana/programs/pyth-lazer-solana-contract/src/lib.rs:303-354 | The in-place rewrite of array and count gives the table of `Updated`; a failed call changes nothing. |
| `SolanaTable.Storage.Rewrite` | contracts/solana/programs/pyth-lazer-solana-contract/src/lib.rs:345-353 | The array is refilled from the edited list and padded with blanks. |
| `SolanaTable.Position` | contracts/solana/programs/pyth-lazer-solana-contract/src/lib.rs:319-327 | The first position of a key in the list, if any. |
| `SolanaVerify.VerifyIsSound` | contracts/solana/programs/pyth-lazer-solana-contract/src/signature.rs:172-323 | On success the message is exactly magic, signature, key, length and payload; the protocol decoder returns the same key and payload; the key is trusted; and the ed25519 program checked exactly that signature, key and payload. |
| `SolanaVerify.VerifiedExactly` | contracts/solana/programs/pyth-lazer-solana-contract/src/signature.rs:172-323 | `verify_message` returns a key and a payload if and only if the message is their envelope under some signature, stands in the running instruction within the 16-bit range, the key is trusted, and an earlier ed25519 instruction lists at that index the very offsets that `Ed25519SignatureOffsets::new` makes for it. |
| `SolanaVerify.SelectIffListed` | contracts/solana/programs/pyth-lazer-solana-contract/src/signature.rs:183-215 | An entry is selected if and only if an earlier ed25519 instruction is a list of entries holding it at that index, and announces more signatures than that index. |
| `SolanaVerify.VerifyIsComplete` | contracts/solana/programs/pyth-lazer-solana-contract/src/signature.rs:59-89 | Offsets built for a serialised message of a trusted key are accepted if and only if the message ends within the 16-bit range of its instruction; otherwise the result is the overflow error. |
| `SolanaVerify.ArgsHoldEntries` | contracts/solana/programs/pyth-lazer-solana-contract/src/signature.rs:81-89 | Every entry can be read back from the program arguments built from a list of entries. |
| `SolanaVerify.BuildProgramArgs` | contracts/solana/programs/pyth-lazer-solana-contract/src/signature.rs:81-89 | The loop extends the vector entry by entry. |
| `Dedup.RunDeliversExactly` | agent/src/lazer_publisher.rs:174-232 | Over any run, with failed encodings, swallowed send failures and any pattern of cache expiry: after a batch, the data last forwarded for each identified feed in it is that of its pending update with the latest timestamp, the last to arrive among equals, if and only if the round that last let the feed through was encoded and sent, or that data had been the last forwarded before it. |
| `Dedup.RunDelivers` | agent/src/lazer_publisher.rs:174-232 | So it always is, for every feed the last batch mentions, when every batch was encoded and sent. |
| `Dedup.SwallowedSendLosesData` | agent/src/lazer_publisher.rs:224-231 | For every update: a send that fails is only logged, after the cache was filled, so the same update arriving again is dropped and its data never reaches a relayer. |
| `Dedup.BatchLetsThrough` | agent/src/lazer_publisher.rs:261-282 | What the two stages let through ends, for every feed of the batch, with its latest data, as long as the cache agrees with what was let through before. |
| `Dedup.BatchDeliversExactly` | agent/src/lazer_publisher.rs:261-282 | After a batch from any state at all, a feed's latest data is the last forwarded if and only if it was before, or the batch was delivered and the cache did not hold that data. |
| `Dedup.PickedStartsRun` | agent/src/lazer_publisher.rs:248-259 | The in-batch stage keeps, for each feed, the first element of its trailing run of equal data. |
| `Dedup.PickedIsLatest` | agent/src/lazer_publisher.rs:248-259 | That element carries the feed's latest data. |
| `Dedup.SortOrders` | agent/src/lazer_publisher.rs:179-180 | The batch is put in the order of source timestamps, seconds before nanoseconds, missing ones first. |
| `Dedup.SortPermutes` | agent/src/lazer_publisher.rs:179-180 | Sorting keeps the multiset of updates. |
| `Dedup.SortIsStable` | agent/src/lazer_publisher.rs:179-180 | Updates with one timestamp keep their order. |
| `Dedup.LatestData` | agent/src/lazer_publisher.rs:179-192 | In the sorted batch the last data of a feed is that of its update with the latest timestamp, the last to arrive among equals. |
| `Dedup.DeduplicateInTx` | agent/src/lazer_publisher.rs:248-259 | The map built in a loop holds the picked updates, listed in some order. |
| `Dedup.PublisherTask.DeduplicateAcross` | agent/src/lazer_publisher.rs:261-282 | The retain pass with the cache, entries expiring at any point of it, keeps exactly the updates of `Retained`. |
| `Dedup.PublisherTask.BatchTransaction` | agent/src/lazer_publisher.rs:174-232 | One batch takes the pending updates and moves cache and forwarded data as `Batch` does, or forwards all of them in order when deduplication is off; it fails exactly when something is left to send and cannot be encoded, while a failed send reports success and forwards nothing. |
| `Relayer.RunKeepsPool` | agent/src/relayer_session.rs:257-366 | Over all interleavings each slot has at most one holder, a permit is out exactly when a worker holds it, a slot's deadline is the one its last outcome set, and no connection attempt starts before it. |
| `Relayer.BackoffIsKept` | agent/src/relayer_session.rs:287-341 | Over all interleavings, after a failed connection or one that was up for less than thirty seconds, no attempt on that relayer starts before the backoff has passed. |
| `Relayer.DeadlineIsRecorded` | agent/src/relayer_session.rs:287-306 | In every reachable state a slot's deadline is the end of its last connection if that was up for at least thirty seconds, and that plus the backoff otherwise. |
| `Relayer.StartsWhenDue` | agent/src/relayer_session.rs:327-341 | In every reachable state a worker that holds a slot and is not connected starts its attempt at its next step if and only if the slot's deadline has come, and else waits for it. |
| `Relayer.LogIsComplete` | agent/src/relayer_session.rs:320-341 | A step logs an attempt exactly when its worker becomes connected, an outcome exactly when it stops being so, and nothing otherwise. |
| `Relayer.ConnectionEnds` | agent/src/relayer_session.rs:337-341 | When a connection ends its outcome is recorded in its own slot and no other slot or worker changes. |
| `Relayer.EmptyScanWaits` | agent/src/relayer_session.rs:320-326 | A scan that found every slot taken is not repeated for 100 milliseconds. |
| `Relayer.OnlyHolderSetsDeadline` | agent/src/relayer_session.rs:287-306 | A slot's deadline changes only when the connection of the worker that holds it ends, and then to that instant after thirty seconds of uptime, or to that instant plus the backoff. |
| `Relayer.ScanFindsFreeSlot` | agent/src/relayer_session.rs:345-366 | With the clamped worker count, in every reachable state, an instantaneous scan by a worker without a permit finds a free slot, and one with the earliest deadline. |
| `Relayer.LoneWorkerTakesEarliest` | agent/src/relayer_session.rs:320-366 | With the clamped worker count, in every reachable state, a worker about to scan that is then left alone comes to hold the free slot with the earliest deadline, and nothing else changes. |
| `Relayer.UninterruptedScan` | agent/src/relayer_session.rs:345-366 | A scan that nobody interrupts ends about to acquire exactly the slot the instantaneous scan points to, or asleep if there is none. |
| `Relayer.BestIsEarliest` | agent/src/relayer_session.rs:345-366 | The scan's remembered best is a free slot with the earliest deadline among those seen. |
| `Relayer.Scan` | agent/src/relayer_session.rs:345-366 | The loop that updates `best` computes the best free slot. |
| `Relayer.WorkersFitPool` | agent/src/lazer_publisher.rs:237-244 | The worker count never exceeds the number of relayers, is zero only without relayers, honours every request within the range, and is one for a request of zero and all relayers for none or a greater one. |
| `Hermes.ReplayIsFaithful` | sdk/rust/client/src/resilient_hermes_ws_connection.rs:93-199 | In every run with disconnects and failed sends anywhere, stored subscriptions have disjoint ids and represent the last-write-wins map of all consumed requests; once replay is done the server's map equals it, and each delivered request keeps it equal, as long as unsubscribe requests spell feeds as they were stored. |
| `Hermes.FaithfulIffSpelled` | sdk/rust/client/src/resilient_hermes_ws_connection.rs:93-199 | Replay is faithful at every moment of a run if and only if every unsubscribe request, when it was consumed, spelled its feeds as they were stored. |
| `Hermes.StoredMeansRequest` | sdk/rust/client/src/resilient_hermes_ws_connection.rs:177-199 | A request changes what the stored list represents exactly as it changes the server's map: always for a subscribe request, and for an unsubscribe request if and only if no stored id names one of its feeds under another spelling. |
| `Hermes.ReplayIsFaithfulById` | sdk/rust/client/src/resilient_hermes_ws_connection.rs:93-199 | For subscriptions keyed by the id as written, replay is faithful in every run, with no condition on the requests. |
| `Hermes.OneSpellingIsClean` | sdk/rust/client/src/resilient_hermes_ws_connection.rs:177-199 | Where every feed has one spelling, that condition always holds. |
| `Hermes.OtherSpellingIsResubscribed` | sdk/rust/client/src/resilient_hermes_ws_connection.rs:202-209 | Where two spellings name one feed, unsubscribing under the other spelling leaves the server, after a reconnect, subscribed to a feed the requests had unsubscribed. |
| `Hermes.SpellingsExactly` | sdk/rust/protocol/src/hermes.rs:26-51 | Two valid price ids parse to one feed if and only if they differ at most in a prefix and in the case of their letters. |
| `Hermes.ParseExactly` | sdk/rust/protocol/src/hermes.rs:26-51 | A price id parses to bytes if and only if it is their 64 hexadecimal digits, in either case, alone or behind 0x or 0X. |
| `Hermes.PrefixedIdIsResubscribed` | sdk/rust/protocol/src/hermes.rs:32-51 | So for every valid id: subscribed with a prefix and unsubscribed without, it is subscribed again after a reconnect. |
| `Hermes.CapitalIdIsResubscribed` | sdk/rust/protocol/src/hermes.rs:41-51 | The same for an id written with capital letters and without. |
| `Hermes.SomeIdIsResubscribed` | sdk/rust/protocol/src/hermes.rs:26-51 | Both at one id of 64 digits. |
| `Hermes.StoredIsDisjoint` | sdk/rust/client/src/resilient_hermes_ws_connection.rs:177-199 | Every request keeps the ids of different stored subscriptions disjoint. |
| `Hermes.StoredIsNonempty` | sdk/rust/client/src/resilient_hermes_ws_connection.rs:177-199 | No subscription stays stored without ids, save a request just made that had none. |
| `Hermes.ConnectionTask.RecordRequest` | sdk/rust/client/src/resilient_hermes_ws_connection.rs:177-195 | The edits of the stored list, in place, give `Stored`. |
| `Hermes.Strip` | sdk/rust/client/src/resilient_hermes_ws_connection.rs:202-209 | Removing ids keeps exactly the ids not in the list, in order. |
| `DynamicValue.RoundTrip` | publisher_sdk/rust/src/convert_dynamic_value.rs:14-178 | For every nested value, writing and reading back is the identity if and only if the whole seconds of every contained timestamp and duration, in microseconds, fit 63 bits; any other value is refused. |
| `DynamicValue.ReadIffWellFormed` | publisher_sdk/rust/src/convert_dynamic_value.rs:123-178 | A message is read if and only if at every depth its parts are present, its times are in range and its maps repeat no key. |
| `DynamicValue.MapReadExactly` | publisher_sdk/rust/src/convert_dynamic_value.rs:149-166 | A map message is read as a list of entries if and only if its keys are unique and the list holds, in key order, the readings of its items. |
| `DynamicValue.KeyLessExactly` | publisher_sdk/rust/src/convert_dynamic_value.rs:149-166 | The key order is the alphabetical one: the keys first differ where the smaller has ended or has the smaller character. |
| `DynamicValue.ReadWriteRead` | publisher_sdk/rust/src/convert_dynamic_value.rs:123-178 | Whatever message is read, writing its value gives a message that is read as the same value if and only if, at every depth, the message's whole seconds with their fractions carried over stay within the bound; otherwise it is refused. |
| `DynamicValue.TimeRereadsExactly` | sdk/rust/protocol/src/time.rs:198-231 | That bound for one time, on the message's own seconds and fraction. |
| `DynamicValue.ReadIsCanonical` | publisher_sdk/rust/src/convert_dynamic_value.rs:149-166 | What is read is in key order at every depth. |
| `DynamicValue.TimeRoundTrip` | sdk/rust/protocol/src/time.rs:198-231 | The exact bound for one time. |
| `DynamicValue.TimeAccepted` | sdk/rust/protocol/src/time.rs:198-218 | Which times are read and as what: the sum never overflows, and a fraction of less than a microsecond may be negative. |
| `DynamicValue.TimeRewrite` | sdk/rust/protocol/src/time.rs:220-231 | A message is the writing of what is read from it exactly when its fraction is a whole number of microseconds below one second. |
| `DynamicValue.AcceptedTimeLost` | sdk/rust/protocol/src/time.rs:443-476 | A time that is read and then, written again, refused: the fraction is not kept below one second. |
| `DynamicValue.ConvertProto` | publisher_sdk/rust/src/convert_dynamic_value.rs:123-147 | The recursive conversion computes `FromProto`. |
| `DynamicValue.ConvertList` | publisher_sdk/rust/src/convert_dynamic_value.rs:168-178 | The loop that pushes, stopping at the first refusal. |
| `DynamicValue.ConvertMap` | publisher_sdk/rust/src/convert_dynamic_value.rs:149-166 | The loop that inserts, stopping at the first refusal or repeated key. |
| `DynamicValue.WriteProto` | publisher_sdk/rust/src/convert_dynamic_value.rs:14-33 | The recursive conversion computes `ToProto`. |
| `DynamicValue.WriteList` | publisher_sdk/rust/src/convert_dynamic_value.rs:90-101 | The loop that pushes the converted elements. |
| `DynamicValue.WriteMap` | publisher_sdk/rust/src/convert_dynamic_value.rs:56-71 | The loop over the entries in key order. |

## Left out

- Keccak, secp256k1 recovery, ed25519 checking, strkey and XDR decoding: uninterpreted, so nothing is said about forging.
- Storage time-to-live amounts: an entry may be archived at any moment, which is more than the host does; that
  extensions keep entries live is not modelled. The one extension that can meet a missing entry traps; every other one
  is of an entry just written or found present.
- What happens after either Stellar contract's code is replaced.
- Fee transfer, account constraints, `initialize` and `verify_ecdsa_message` of the Solana program.
- SolanaVerify.VerifyIsSound: panics on out-of-range slices count as a failed transaction; that none occurs is not claimed.
- What a writer holds after a failed `serialize` of a payload or an envelope; only that it fails is stated.
- The publisher lists of aggregated data, which neither the payload nor the compared fields carry.
- `payload/packed_evm.rs` is not part of this model.
- Hermes.ReplayIsFaithful: the server is assumed to keep one last-write-wins map for each connection and to start each with
  an empty one; its own code is not modelled.
- The relayer and Hermes backoff schedules: durations are arbitrary, deadlines are what was recorded.
- Relayer.ScanFindsFreeSlot: speaks of an instantaneous scan; a scan interleaved with other workers can miss a slot freed
  behind it, and then sleeps and scans again.
- Messages.Serialize: writing the JSON form is taken never to fail.
- Why an encoding or a send fails: both outcomes of a batch are arguments.
- Effects of third contracts that a governance action calls; only whether such a call returns or traps.
- Proxy handling, TLS, HTTP and WebSocket servers, JSON-RPC handlers and metadata fetching.
- `stream_client.rs`, `hermes_client.rs`, `router_client.rs`, `state_client.rs`, `api_client.rs` and the HTTP client.
- The JavaScript SDK, scripts, examples and IDL.
- Price and rate arithmetic, which rests on floating-point and decimal libraries, and conversions between enumerations other than channels and sessions.
