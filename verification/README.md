# Raven: a verified model

This project models the hard core of the Raven repository in Dafny and proves what that code is for.
Every proof ranges over all inputs, all runs or all orders of arrival.

- **Ratchets.** `SymmetricRatchet` is the out-of-order symmetric ratchet with stored skipped keys,
  `EpochRatchet` the two-party epoch ratchet, `ReceiveCommit` the commit ledger and the order of
  durable receive steps.
- **Full Braid.** `BraidState` holds the records and validity conditions; `RatchetCodec` and
  `BraidCodec` give the RVFT1 and RVFB1 formats as grammars and prove them inverse; `WireReading`,
  `RatchetReader`, `BraidReader`, `WireWriting`, `RatchetWriter`, `BraidWriter` and `BraidValidate`
  are the reading, writing and validating loops, proved to compute exactly those grammars and
  conditions. `BraidChunks`, `SckaChain` and `BraidTransition` specify emission, reassembly, the
  epoch-chain cache and the four transitions, `BraidSession` performs them in place, and
  `BraidPipeline` covers preparation, promotion and clearing; `BraidAgreement` shows what steps carry
  over to later steps and that two parties stay in agreement. `BraidWire` gives the wires of inputs and
  environments as grammars, with `BraidWireReader` and `BraidWireWriter` as their loops; `BraidConfirm`
  is the AEAD confirmation inside two of the transitions, and `BraidMachine` the whole transition from
  wires to wires.
- **Append-only stores.** `AnchorCodec` and `AnchorChain` decide protected-anchor appends;
  `RevocationWire`, `RevocationSnapshot`, `RevocationStore` and `RevocationRuns` are the device
  revocation record, the canonical store snapshot, the deny-set store and its runs.
- **Crash and replay protocols.** `ReplayCache`, `Delegation` and `SignatureCheck` are the replay cache,
  the signed bytes and the two signature checks that end in the cache, `Base64` the texts of signatures;
  `RelayOutcomes`, `Relay` and `RelayWorker` are the at-most-once task relay as a state machine with
  crashes between any two durable writes, and the worker loop shown to run it. `RelayTwice` says how
  often and when the brain runs again, `RelayFiles` which file an unlink removes, `RelaySpellings` what
  holds per signature rather than per text. `RelayReplies` is the acknowledged delivery of replies,
  `Trust` the three-write trust update.
- **Bounded allocator.** `TaskStore` is the bounded store of tasks: byte and count accounting, expiry and
  eviction; `TaskListing` its filtered, sorted and paged listing.
- **Bech32m.** `Checksum`, `BitRegroup` and `Bech32m` follow BIP-350 and the checksum of BIP-173;
  `Address` is the Raven address on top.

`Bytes`, `ByteOrder`, `Collections`, `Sorting` and `Text` are shared vocabulary.

Conventions. Hashes, MACs, key derivation, signatures and AEAD are parameters: arbitrary functions of
the right type. No digest is assumed injective: where a theorem needs it, the hypothesis is that the
finitely many values occurring in it do not collide, and an instance is proved beside it. A raised
exception is `None`, a `Result` or an explicit outcome. Clock readings, randomness and failures of durable writes are
parameters or steps. Where the code updates in place, a class with the same fields does, and its
methods are tied to a specification function by `ensures`; the theorems are about that function.
A durable write is atomic and, when it raises, has changed nothing.

Some results differ from the first guess a reader of the code may have:

- The relay, its replies and the replay cache read the clock once to check a signature's expiry and again
  when they consult their table. Within one reading their promises hold. Between two readings a signature
  is accepted a second time exactly when the cache is consulted at or after its expiry, or in memory beyond
  its retention (`ReplayCache.SecondAcceptanceIff`, with a run for every lifetime in `AcceptedTwice`). A task
  that has run runs again exactly when it is claimed at or after its expiry and there is room
  (`RelayTwice.ReclaimIff`, with a run in `Relay.LateClaimRunsTwice`), and never a third time
  (`RelayTwice.AtMostTwice`). An acknowledged reply is handed out again exactly when it is looked up at or
  after its expiry (`RelayReplies.HandedOutAgainIff`, with a run in `TwoRepliesDelivered`).
- Files are removed by path. The one removed is the one that was read unless another arrived over it
  meanwhile, and then that other is lost unhandled (`RelayFiles.RemovedIff`, `OverwrittenUnanswered`;
  `RelayReplies.ReplyRemovedIff`, `OverlaidNeverShown`).
- Replay rows and outcome rows are keyed by the text of a signature, and the decoder ignores the unused
  bits of its last character. Per signature the promises hold while texts are canonical
  (`SignatureCheck.NoSignatureTwice`, `RelaySpellings.AtMostOncePerSigned`) and fail for two texts whose
  unused bits differ (`SignatureCheck.SpellingAcceptedIff`, `RelaySpellings.BothRunIff`).
- The revocation snapshot depends on the order of its lists exactly when two items sort alike but are
  written differently (`RevocationSnapshot.OrderBlindIff`). For corrupt markers that is reached by two
  failed re-verifications (`RevocationRuns.FailureOrderShows`).
- Fork detection compares with the issuer's last claim only; `RevocationRuns.ForkRecordedIff` says which
  forks it records, and `RevocationRuns.ForkMissed` shows one it does not.
- Of the three canonicality tests in `transition`, those on state and environment never fire; the one on
  the input does, because the chain-header decoder accepts directions its encoder refuses
  (`BraidWire.InputCanonicalIff`, `BraidWire.NonCanonicalInput`, `BraidMachine.TransitionIff`).
- Accept keys are packed without lengths, so session ids of different lengths can pack alike
  (`ReceiveCommit.PackedInjectiveIff`).
- A page token names a task, so a listing that changes between two requests can show a task twice
  (`TaskListing.TokenKeepsPlace`, `TaskListing.ShownTwice`).
- The bit count at the end of `_validate_inbound_set` looks redundant; it is what rejects a chunk with
  a negative index whose wrapped bitmap position is set (`BraidValidate.ValidateInboundSet`).

Run `dafny verify dfyconfig.toml` to check everything.

## Model

| member | source | states |
|---|---|---|
| Checksum.ComputePolymod | protocol/reference/raven_protocol/bech32m.py:6-14 | the double loop over values and generator bits equals a fold of one word-level step from 1, for any length |
| Checksum.StepLinear | protocol/reference/raven_protocol/bech32m.py:9-13 | the step is linear over GF(2): it distributes over xor of state and of value |
| Checksum.StepKernel | protocol/reference/raven_protocol/bech32m.py:9-13 | the zero-input step maps only the zero word to zero |
| Checksum.PolymodInjective | protocol/reference/raven_protocol/bech32m.py:6-14 | over equal inputs different states stay different, however many values follow |
| Checksum.WindowDetermined | protocol/reference/raven_protocol/bech32m.py:6-25 | with everything outside a window of six symbols fixed, the polymod value determines the window |
| Checksum.ChecksumVerifies | protocol/reference/raven_protocol/bech32m.py:19-25 | six symbols verify after given values if and only if they are the created checksum |
| BitRegroup.ConvertBits | protocol/reference/raven_protocol/bech32m.py:27-43 | the accumulator loop computes the closed form: the base-2^to digits of the number denoted, with padding or the strict zero-padding test; None exactly on an out-of-range value or bad padding |
| BitRegroup.GroupsToBytesOfBytesToGroups | protocol/reference/raven_protocol/bech32m.py:27-43 | 8 to 5 with padding then 5 to 8 strict gives back the bytes, any length |
| BitRegroup.BytesToGroupsOfGroupsToBytes | protocol/reference/raven_protocol/bech32m.py:27-43 | whatever 5 to 8 strict accepts is what 8 to 5 writes for its result |
| Bech32m.EncodeOfDecode | protocol/reference/raven_protocol/bech32m.py:45-70 | every accepted string, in lower case, is the encoding of what it decodes to |
| Bech32m.DecodeOfEncode | protocol/reference/raven_protocol/bech32m.py:45-70 | decoding undoes encoding for every payload, if and only if the human-readable part is non-empty, printable and free of capitals |
| Bech32m.BurstDetected | protocol/reference/raven_protocol/bech32m.py:50-70 | an accepted string changed only within six neighbouring data characters is rejected, at any length |
| Bech32m.SubstitutionDetected | protocol/reference/raven_protocol/bech32m.py:50-70 | replacing one data character of an accepted lower-case string by another charset character makes decode fail |
| Address.Exact | protocol/reference/raven_protocol/address.py:11-19 | a decodable 44-character address has nothing to strip, is printable ASCII, and in lower case starts with rvn1 |
| Address.EncodeIsCanonical | protocol/reference/raven_protocol/address.py:6-19 | the address of a key has 44 characters, is canonical and decodes to the key's hash and version |
| SymmetricRatchet.SenderKeys | protocol/reference/raven_protocol/hybrid_ratchet_v2_state.py:158-160 | after any number of sends the sender's state and keys are those of the chain |
| SymmetricRatchet.EcSkipKeys | protocol/reference/raven_protocol/hybrid_ratchet_v2_state.py:163-177 | the loop over chain key, index and dictionary equals the recursive skip, and fails behind n, beyond max_skip, and where an index to be stored needs a fifth byte |
| SymmetricRatchet.MkKeyInjective | protocol/reference/raven_protocol/hybrid_ratchet_v2_state.py:133-134 | storage keys of different four-byte indices differ |
| SymmetricRatchet.RecvMessageTracks | protocol/reference/raven_protocol/hybrid_ratchet_v2_state.py:180-211 | one arrival keeps the stored map exactly the undelivered indices below n, each with the sender's key, and delivers the sender's key or changes nothing |
| SymmetricRatchet.RunCorrect | protocol/reference/raven_protocol/hybrid_ratchet_v2_state.py:158-211 | for every arrival sequence: delivered keys are the sender's, no index twice, stored keys are exactly those of undelivered indices below n |
| SymmetricRatchet.AcceptedIff | protocol/reference/raven_protocol/hybrid_ratchet_v2_state.py:197-211 | in every reachable state an index is accepted if and only if it is undelivered and at most max_skip ahead of n |
| EpochRatchet.LockstepAgrees | protocol/reference/raven_protocol/hybrid_ratchet_v2_state.py:70-130 | for every lockstep sequence the roots agree, each send chain is the other's receive chain, epochs and counters mirror and every derived key matched |
| EpochRatchet.LockstepState | protocol/reference/raven_protocol/hybrid_ratchet_v2_state.py:77-130 | after any lockstep run each root, epoch, counter and sending chain is given by the promotions and messages so far: epochs count promotions, counters restart with each |
| EpochRatchet.PromotionCommutesWithReply | protocol/reference/raven_protocol/hybrid_ratchet_v2_state.py:77-130 | an epoch promotion by one side commutes with a message of the other direction |
| ReceiveCommit.PackedIff | protocol/reference/raven_protocol/hybrid_ratchet_v2_state.py:214-229 | for session ids and keys of any length: two accept keys pack alike if and only if all three counters and the concatenation of the two byte strings agree |
| ReceiveCommit.PackedInjectiveIff | protocol/reference/raven_protocol/hybrid_ratchet_v2_state.py:214-229 | keys that pack alike are the same key if and only if their session ids have one length |
| ReceiveCommit.DifferentKeysPackAlike | protocol/reference/raven_protocol/hybrid_ratchet_v2_state.py:214-229 | two different keys that pack alike |
| ReceiveCommit.AcceptedOnce | protocol/reference/raven_protocol/hybrid_ratchet_v2_state.py:244-262 | in any run a packed key once accepted is a replay ever after, an accepted digest is never accepted again and its first acknowledgement is kept |
| ReceiveCommit.LedgerCounts | protocol/reference/raven_protocol/hybrid_ratchet_v2_state.py:232-258 | accepted keys, retained digests and mutations are counted alike in every reachable ledger |
| ReceiveCommit.ReceiveCommitMachine.Apply | protocol/reference/raven_protocol/hybrid_ratchet_v2_state.py:370-437 | each action changes the fields as specified or raises and changes nothing |
| ReceiveCommit.DurableOrder | protocol/reference/raven_protocol/hybrid_ratchet_v2_state.py:370-437 | over every action sequence: SQL commit precedes finalisation, the head is finalised at most once, the epoch is promoted exactly when a candidate carrying one is finalised |
| WireReading.WireReader.ReadBytes | protocol/reference/raven_protocol/full_braid_wire.py:116-120 | reads exactly the next n bytes and advances, or fails when fewer are left |
| WireReading.WireReader.ReadUint | protocol/reference/raven_protocol/full_braid_wire.py:92-114 | reads a big-endian integer of the given width and advances, or fails |
| RatchetReader.ReadChain | protocol/reference/raven_protocol/full_braid_state.py:268-282 | the counted loop reads what the list grammar says, with the cap |
| RatchetReader.ReadSckaSkipped | protocol/reference/raven_protocol/full_braid_state.py:285-296 | as above for skipped post-quantum keys |
| RatchetReader.ReadEcSkipped | protocol/reference/raven_protocol/full_braid_state.py:311-319 | as above for skipped elliptic-curve keys |
| RatchetReader.DecodeRvft1Bytes | protocol/reference/raven_protocol/full_braid_state.py:257-347 | the stepped reader accepts exactly the strings of the RVFT1 grammar whose value is valid |
| RatchetWriter.EncodeRvft1Value | protocol/reference/raven_protocol/full_braid_state.py:350-399 | the growing buffer ends as the RVFT1 form; None exactly for invalid or out-of-range values |
| RatchetCodec.Rvft1Inverse | protocol/reference/raven_protocol/full_braid_state.py:257-399 | encode(v) is data if and only if decode(data) is v, for all values and byte strings |
| RatchetCodec.SizeCap | protocol/reference/raven_protocol/full_braid_state.py:19-22 | a valid value takes at most 80505 bytes, with equality if and only if all four lists are at their caps |
| BraidValidate.CheckSorted | protocol/reference/raven_protocol/full_braid_state.py:68-71 | the neighbour test decides strict sortedness |
| BraidValidate.ValidateInboundSet | protocol/reference/raven_protocol/full_braid_state.py:600-628 | the chunk loop, bit loop and count test together decide that bitmap and chunk list name the same indices 0..63; the count test is what rejects a wrapped negative index |
| BraidValidate.ValidateTlvs | protocol/reference/raven_protocol/full_braid_state.py:580-597 | the two loops decide the per-agent TLV matrix |
| BraidValidate.ValidateState | protocol/reference/raven_protocol/full_braid_state.py:631-670 | the validator decides ValidState |
| BraidReader.ReadPrefix | protocol/reference/raven_protocol/full_braid_state.py:402-429 | reads the 275-byte prefix; the closing offset test always passes |
| BraidReader.DecodeRvfb1Bytes | protocol/reference/raven_protocol/full_braid_state.py:466-549 | the nested reading loops accept exactly the strings of the RVFB1 grammar whose state is valid |
| BraidWriter.WritePrefix | protocol/reference/raven_protocol/full_braid_state.py:432-463 | writes the prefix, failing exactly when a field does not fit |
| BraidWriter.EncodeRvfb1State | protocol/reference/raven_protocol/full_braid_state.py:673-730 | the nested writing loops end as the RVFB1 form; None exactly for invalid or out-of-range states |
| BraidCodec.Rvfb1Inverse | protocol/reference/raven_protocol/full_braid_state.py:466-730 | encode(s) is data if and only if decode(data) is s, for all states and byte strings |
| Bitmap.GetAfterSet | protocol/reference/raven_protocol/full_braid_transition.py:548-550 | setting a bit sets that bit and leaves every other as it was |
| Bitmap.BitmapExtensional | protocol/reference/raven_protocol/full_braid_state.py:576-577 | bitmaps that test alike everywhere are equal |
| BraidChunks.EmitsEveryChunk | protocol/reference/raven_protocol/full_braid_transition.py:470-496 | a fresh send emits each chunk of its source once, in order, correctly bound, and then refuses |
| BraidChunks.EmittedFramesCarryChunks | protocol/reference/raven_protocol/full_braid_transition.py:128-134 | every frame of a fresh send carries the chunk its index names |
| BraidChunks.AnyOrder | protocol/reference/raven_protocol/full_braid_transition.py:512-556 | frames of a source in any order with any repeats, into sets where the key is absent, blank or partly filled: every insertion succeeds, nothing comes out until the last missing chunk, then exactly the source; the set holds exactly what arrived and every other set is untouched |
| BraidChunks.BlankBegins | protocol/reference/raven_protocol/full_braid_transition.py:499-509 | the blank set an epoch starts with is one such a delivery may begin with |
| BraidChunks.OrderIrrelevant | protocol/reference/raven_protocol/full_braid_transition.py:512-556 | two deliveries of the same chunks leave identical inbound sets |
| BraidChunks.HoldsIsValid | protocol/reference/raven_protocol/full_braid_transition.py:499-550 | the set so built passes validation: list and bitmap agree bit for bit |
| SckaChain.CacheIsTopEight | protocol/reference/raven_protocol/full_braid_transition.py:597-604 | after any insertions the chain is the last-write-wins table restricted to its eight largest epochs, ascending |
| SckaChain.InsertKeepsChainOk | protocol/reference/raven_protocol/full_braid_transition.py:597-604 | an insertion keeps the chain valid and its entries in range |
| BraidSession.InsertSckaChain | protocol/reference/raven_protocol/full_braid_transition.py:597-604 | filter, append, sort and drop compute the chain insertion |
| BraidSession.Session.Emit | protocol/reference/raven_protocol/full_braid_transition.py:470-496 | the in-place emission returns the frame and advances only the send index, or changes nothing |
| BraidSession.Session.InsertSystematicFrame | protocol/reference/raven_protocol/full_braid_transition.py:512-556 | the in-place search, insertion and join compute the specified inbound sets and source; a refused frame whose index is in range changes nothing, any other leaves its chunk without its bit |
| BraidSession.Session.ApplyKeysUnsampledSend | protocol/reference/raven_protocol/full_braid_transition.py:324-366 | the in-place update gives the specified state and frame, or changes nothing |
| BraidSession.Session.ApplyHdrReceive | protocol/reference/raven_protocol/full_braid_transition.py:419-436 | the in-place update gives the specified state, or changes nothing |
| BraidSession.Session.ApplyHeaderReceivedSend | protocol/reference/raven_protocol/full_braid_transition.py:837-879 | the in-place update gives the specified state, frame, chain header and ciphertext, or the specified half-changed object of the step that raised |
| BraidSession.Session.ApplyEkSentCt1ReceivedReceive | protocol/reference/raven_protocol/full_braid_transition.py:882-925 | the in-place update gives the specified state and epoch, or the specified half-changed object of the step that raised |
| BraidTransition.KeySendValid | protocol/reference/raven_protocol/full_braid_transition.py:324-366 | key send yields a state that passes all validation, TLV matrix of the new agent included, with the same agent epoch; it encodes if and only if the epoch has a predecessor |
| BraidTransition.HeaderReceiveValid | protocol/reference/raven_protocol/full_braid_transition.py:419-436 | the same for header reception |
| BraidTransition.Ct1SendValid | protocol/reference/raven_protocol/full_braid_transition.py:837-879 | the same for CT1 send |
| BraidTransition.Ct2ReceiveValid | protocol/reference/raven_protocol/full_braid_transition.py:882-925 | the same for CT2 reception, which advances the agent epoch by one and encodes if and only if both neighbours exist |
| BraidTransition.PromoteValid | protocol/reference/raven_protocol/full_braid_transition.py:607-622 | promoting either chain of a valid ratchet with a nonzero key yields a ratchet that encodes |
| BraidTransition.ConfirmedNeverFails | protocol/reference/raven_protocol/full_braid_transition.py:875-877 | once the confirmed ratchet encodes, only a zero output key can stop the promotion |
| BraidTransition.CandidateValid | protocol/reference/raven_protocol/full_braid_transition.py:947-991 | every accepted transition yields a valid state, encodable if and only if the epochs it mentions exist; only CT2 reception moves the agent epoch |
| BraidWireReader.DecodeRvch1Bytes | protocol/reference/raven_protocol/full_braid_wire.py:169-188 | the stepped reader of chain headers accepts exactly the RVCH1 grammar |
| BraidWireReader.DecodeFrameBytes | protocol/reference/raven_protocol/full_braid_wire.py:365-377 | the same for data frames, RVBC1 |
| BraidWireReader.DecodeMutationBytes | protocol/reference/raven_protocol/full_braid_wire.py:299-331 | the same for AEAD mutations, RVBM1, contract included |
| BraidWireReader.DecodeInputBytes | protocol/reference/raven_protocol/full_braid_wire.py:452-524 | the same for transition inputs, RVBI1; the second computation of the mutation's length always agrees with the bytes read |
| BraidWireReader.DecodeEnvBytes | protocol/reference/raven_protocol/full_braid_wire.py:602-652 | the same for environments, RVBE1, caps and seed lengths included |
| BraidWireWriter.EncodeMutationBytes | protocol/reference/raven_protocol/full_braid_wire.py:274-292 | the growing buffer ends as the RVBM1 form; None exactly when the contract fails |
| BraidWireWriter.EncodeInputBytes | protocol/reference/raven_protocol/full_braid_wire.py:417-449 | the same for RVBI1, its chain headers, digest, frame and mutation refused as in the source |
| BraidWireWriter.EncodeEnvBytes | protocol/reference/raven_protocol/full_braid_wire.py:575-599 | the same for RVBE1 |
| BraidWire.Rvch1Canonical | protocol/reference/raven_protocol/full_braid_wire.py:147-188 | a decoded chain header is written back as it was if and only if its direction is 0 or 1; the decoder does not check that |
| BraidWire.FrameInverse | protocol/reference/raven_protocol/full_braid_wire.py:346-377 | frames and their wires correspond one to one, the chunk type up to its low byte when written |
| BraidWire.MutationRoundTripIff | protocol/reference/raven_protocol/full_braid_wire.py:234-331 | an encodable mutation is read back if and only if its oracle has 32 bytes, which the encoder does not check |
| BraidWire.InputCanonicalIff | protocol/reference/raven_protocol/full_braid_wire.py:417-524 | an accepted input wire is what the encoder writes for it if and only if the directions of both chain headers are 0 or 1 |
| BraidWire.InputRoundTripIff | protocol/reference/raven_protocol/full_braid_wire.py:417-524 | what the input encoder writes is read back if and only if the direction is a byte and the oracle has 32 bytes, neither of which it checks |
| BraidWire.NonCanonicalInput | protocol/reference/raven_protocol/full_braid_wire.py:169-188 | there is an accepted input wire that does not encode again |
| BraidWire.EnvCanonical | protocol/reference/raven_protocol/full_braid_wire.py:549-652 | every accepted environment wire is what the encoder writes for it |
| BraidWire.EnvRoundTripIff | protocol/reference/raven_protocol/full_braid_wire.py:192-216 | an encodable environment is read back if and only if each part of its trust evidence has 32 bytes; the encoder checks only their sum |
| BraidConfirm.AadBinds | protocol/reference/raven_protocol/full_braid_transition.py:625-675 | equal admitted-trust bytes mean the same session, direction and evidence, unless an address binding collides |
| BraidConfirm.ConfirmationBinds | protocol/reference/raven_protocol/full_braid_transition.py:731-834 | a receiver that opens the sender's ciphertext under the same keys acts on the very chain header, frame, epoch, session, direction and evidence the sender sealed, if that ciphertext opens under no other associated data |
| BraidConfirm.ConfirmationOpens | protocol/reference/raven_protocol/full_braid_transition.py:731-834 | what a sender sealed is accepted by a receiver with the same keys, frame and evidence, unless the header's index lies behind the receiving chain |
| BraidConfirm.SidesMeet | protocol/reference/raven_protocol/full_braid_transition.py:731-834 | two sides that meet every hypothesis of the binding theorem |
| BraidConfirm.SentEncodesIff | protocol/reference/raven_protocol/full_braid_transition.py:761-764 | after sending, the ratchet still encodes if and only if its message counter has room |
| BraidMachine.TransitionIff | protocol/reference/raven_protocol/full_braid_transition.py:928-1003 | a transition on decodable wires succeeds if and only if both chain-header directions are 0 or 1, its candidate is accepted and the epochs it mentions exist; the tests on state and environment never fire; candidate and frame decode back |
| BraidMachine.HeaderCrosses | protocol/reference/raven_protocol/full_braid_transition.py:324-436 | the header frame one party's transition writes is accepted by the awaiting peer's transition in every canonical receive input of that direction, and stored as chunk 0 |
| BraidMachine.TransitionBytes | protocol/reference/raven_protocol/full_braid_transition.py:928-1003 | decode, test, copy, change the copy in place and encode: exactly the specified transition, refusals included |
| BraidAgreement.ConfirmedDecodes | protocol/reference/raven_protocol/full_braid_transition.py:607-622 | the re-encoded ratchet decodes to the given EC half, the next root and exactly one new entry in the right chain |
| BraidAgreement.ExchangeAgrees | protocol/reference/raven_protocol/full_braid_transition.py:837-925 | two parties agreeing on epoch, authentication root, ratchet root and secret agree again after one sends CT1 and the other receives CT2, and the sender's new sending entry is the receiver's receiving entry |
| BraidPipeline.PreparedEncodesIff | protocol/reference/raven_protocol/full_braid_transition.py:260-288 | a valid candidate can be prepared if and only if fewer than 64 replays are recorded and the transition id is new |
| BraidPipeline.PromotedAndClearedEncode | protocol/reference/raven_protocol/full_braid_transition.py:213-244 | a prepared state always promotes, and clears if and only if the generation counter has room |
| AnchorCodec.DecodeOfEncode | protocol/reference/raven_protocol/full_braid_protected_anchor.py:205-241 | encoding succeeds exactly for in-range fields with an empty, zero or right tag, always to 204 bytes, and decodes to the same fields with the tag filled in |
| AnchorCodec.EncodeOfDecode | protocol/reference/raven_protocol/full_braid_protected_anchor.py:244-275 | every accepted blob is the encoding of the fields read from it |
| AnchorChain.EstablishedChainOk | protocol/reference/raven_protocol/full_braid_protected_anchor.py:313-327 | the loop decides that the sorted anchors are numbered 1..N along permitted status edges |
| AnchorChain.ClassifyAppend | protocol/reference/raven_protocol/full_braid_protected_anchor.py:330-388 | the loop with its seen table computes the decision against the sorted chain of the candidate's record |
| AnchorChain.OrderIrrelevant | protocol/reference/raven_protocol/full_braid_protected_anchor.py:330-388 | for any list, sound or not, the decision does not depend on the order of the existing blobs |
| AnchorChain.EdgesAreHistories | protocol/reference/raven_protocol/full_braid_protected_anchor.py:303-310 | the status edges generate exactly the words HEAD+ (DELETING TOMBSTONE?)? |
| AnchorChain.GrowKeepsStore | protocol/reference/raven_protocol/full_braid_protected_anchor.py:282-388 | keeping exactly the appended submissions keeps every record numbered 1..N, with one session and role and such a status word |
| AnchorChain.GrownAnchors | protocol/reference/raven_protocol/full_braid_protected_anchor.py:282-300 | every kept anchor belongs to its session's record, has a horizon exactly from deletion on, and a blank transition exactly when first or a tombstone |
| AnchorChain.ReplayIffStored | protocol/reference/raven_protocol/full_braid_protected_anchor.py:367-371 | re-submission is an exact replay if and only if the blob is stored |
| AnchorChain.TombstoneIsFinal | protocol/reference/raven_protocol/full_braid_protected_anchor.py:303-310 | nothing is appended to a record that has a tombstone |
| RevocationWire.AddressIsAscii | protocol/reference/raven_protocol/device_revocation.py:60-68 | an accepted address is ASCII, so its encoding cannot fail |
| RevocationWire.ReadLp | protocol/reference/raven_protocol/device_revocation.py:111-120 | reads a length-prefixed identifier of 1..64 bytes at an offset, or fails |
| RevocationWire.DecodeWire | protocol/reference/raven_protocol/device_revocation.py:123-175 | the offset-stepping decoder with unchecked, clamped slices equals the exact grammar: every accepted field is full |
| RevocationWire.DecodeOfEncode | protocol/reference/raven_protocol/device_revocation.py:71-108 | a record encodes if and only if its fields are acceptable and its signature has 64 bytes, and is then read back unchanged |
| RevocationWire.EncodeOfDecode | protocol/reference/raven_protocol/device_revocation.py:123-175 | every accepted wire is the encoding of the record read from it |
| RevocationSnapshot.CanonicalStoreSnapshot | protocol/reference/raven_protocol/device_revocation.py:284-325 | the accumulating loops produce the sorted layout, failing exactly when some item does not fit |
| RevocationSnapshot.SnapshotInjective | protocol/reference/raven_protocol/device_revocation.py:284-325 | a snapshot determines generation, claims, exhausted markers and corrupt markers up to list order (reasons modulo 256) |
| RevocationSnapshot.SnapshotForgetsOrder | protocol/reference/raven_protocol/device_revocation.py:284-325 | rearranging any list leaves the snapshot unchanged when the claims have distinct digests, markers of one address and digest are one marker, and no scope carries two reasons |
| RevocationSnapshot.OrderBlindIff | protocol/reference/raven_protocol/device_revocation.py:284-325 | a snapshot is blind to the order of its three lists if and only if just that holds; nothing is assumed of the digest |
| RevocationStore.ConformanceStore.AppendTargets | protocol/reference/raven_protocol/device_revocation_conformance.py:108-113 | appends exactly the lineage targets not yet denied, in order |
| RevocationStore.ConformanceStore.ApplyVerifiedClaim | protocol/reference/raven_protocol/device_revocation_conformance.py:116-224 | the in-place update equals the specified step in every branch and error, collisions, forks and issuer heads included |
| RevocationStore.ConformanceStore.Expand | protocol/reference/raven_protocol/device_revocation_conformance.py:232-235 | the quota only grows |
| RevocationStore.ConformanceStore.ConvertExhaustedJournalToPending | protocol/reference/raven_protocol/device_revocation_conformance.py:238-247 | converts exactly an exhausted journal, keeping its bytes |
| RevocationStore.ConformanceStore.ReverifyJournal | protocol/reference/raven_protocol/device_revocation_conformance.py:250-299 | reports the outcome, malformed hexadecimal text included, and on a failure records its reason and clears the journal |
| RevocationStore.ConformanceStore.AuthorizeDevice | protocol/reference/raven_protocol/device_revocation_conformance.py:302-340 | the nested search gives the verdict: corrupt, exhausted, first matching kind, or authorised |
| RevocationRuns.RevokedForever | protocol/reference/raven_protocol/device_revocation_conformance.py:97-340 | from any state, after a claim was applied or marked exhausted, every device sharing a lineage value is refused after any further steps that bring no other bytes with the claim's digest |
| RevocationRuns.RevokedInstance | protocol/reference/raven_protocol/device_revocation_conformance.py:97-340 | a claim and a run of four steps that meet its hypotheses |
| RevocationRuns.OwnJournalReverifies | protocol/reference/raven_protocol/device_revocation_conformance.py:250-280 | the journal an exhausted claim leaves always re-verifies under the same key, through its hexadecimal form |
| RevocationRuns.ReplayAfterExpand | protocol/reference/raven_protocol/device_revocation_conformance.py:137-224 | an exhausted claim is refused until quota growth and journal conversion, then the same bytes are applied, clearing journal and marker |
| RevocationRuns.ReachableStoreOk | protocol/reference/raven_protocol/device_revocation_conformance.py:97-224 | in every reachable store the deny set is exactly the claims' lineage, and claims count distinct revocation ids plus collisions |
| RevocationRuns.AuthorizedIff | protocol/reference/raven_protocol/device_revocation_conformance.py:302-340 | in every reachable store a device is authorised if and only if nothing is corrupt or exhausted and no stored claim shares a value with it |
| RevocationRuns.FailureOrderShows | protocol/reference/raven_protocol/device_revocation_conformance.py:282-299 | two failed re-verifications reach two reasons in one scope from any writable empty store, and done in the other order give another snapshot of the same content |
| RevocationRuns.ForkRecordedIff | protocol/reference/raven_protocol/device_revocation_conformance.py:194-213 | of two stored claims of one issuer under one number, the fork is recorded if and only if no claim of that issuer was stored between them |
| RevocationRuns.ForkMissed | protocol/reference/raven_protocol/device_revocation_conformance.py:194-213 | three stored claims of one issuer, the third under the first one's number, and no record of that fork |
| RevocationRuns.QuotaIff | protocol/reference/raven_protocol/device_revocation_conformance.py:154-224 | applying verified claims without colliding digests to an empty store exhausts it if and only if more distinct claims arrive than the quota; otherwise each is stored once |
| RevocationRuns.ArrivalOrderIrrelevant | protocol/reference/raven_protocol/device_revocation_conformance.py:108-224 | within quota, any order and any repeats of claims without colliding digests give the same claims, deny set, generation, ids, collision count and store hash |
| RevocationRuns.TwoClaims | protocol/reference/raven_protocol/device_revocation_conformance.py:108-224 | two verified claims without a collision, applied in two orders: the hypotheses can be met |
| ReplayCache.ReplayCache.FirstTimeSeen | team_agents/raven_identity.py:92-149 | both forms check and insert as specified; a database error refuses and changes nothing |
| ReplayCache.ReplayCache.Seen | team_agents/raven_identity.py:151-167 | membership at an instant, changing nothing; raises exactly on a database error |
| SignatureCheck.DelegationPassesIff | team_agents/raven_identity.py:571-657 | the chain of checks on a delegation passes if and only if the block is genuine and within its time window |
| SignatureCheck.VerifyDelegation | team_agents/raven_identity.py:571-657 | every branch and its reason: missing block, refusal with the cache untouched, check without consuming, and consumption exactly as the cache decides |
| SignatureCheck.RequestPassesIff | team_agents/raven_identity.py:427-493 | the same equivalence for signed HTTP requests |
| SignatureCheck.VerifyHttpRequest | team_agents/raven_identity.py:427-493 | the same for signed HTTP requests, with the owner reported only on success |
| SignatureCheck.NoReplay | team_agents/raven_identity.py:427-657 | delegations and requests presented to one cache in any order, one clock reading each: no signature string that verifies for one message only is accepted twice |
| Base64.DecodeOfEncode | team_agents/raven_identity.py:632-633 | decoding undoes encoding, for every byte string |
| Base64.CanonicalIff | team_agents/raven_identity.py:632-633 | a text that decodes is the encoding of its bytes if and only if the unused bits of its last character are zero |
| Base64.SpellingsIff | team_agents/raven_identity.py:632-633 | two texts of the same bytes are one text if and only if those bits agree |
| SignatureCheck.NoSignatureTwice | team_agents/raven_identity.py:427-657 | with one clock reading each and canonical texts, no signature is accepted twice, not merely no text |
| SignatureCheck.SpellingAcceptedIff | team_agents/raven_identity.py:92-149 | after an accepted presentation, the same one under a text of the same signature is accepted if and only if the unused bits differ, given room |
| SignatureCheck.AnotherSpelling | team_agents/raven_identity.py:632-649 | every genuine presentation has such another text |
| ReplayCache.SecondAcceptanceIsLate | team_agents/raven_identity.py:92-149 | with two clock readings: a second acceptance of a signature happens only if the cache is consulted at or after its expiry |
| ReplayCache.SecondAcceptanceIff | team_agents/raven_identity.py:92-149 | after an acceptance, the next admissible attempt is accepted if and only if there is room and the cache is consulted at or after the expiry, or in memory more than the retention after the last acceptance |
| ReplayCache.AcceptedTwice | team_agents/raven_identity.py:92-149 | for every admissible lifetime, in either form, a run of two attempts both accepted: verified in the last second, consulted later |
| ReplayCache.NeverTwice | team_agents/raven_identity.py:610-657 | with one clock reading per verification no signature is accepted twice, in either form |
| ReplayCache.RetentionIff | team_agents/raven_identity.py:53-55 | the in-memory form keeps that promise if and only if its retention is at least lifetime plus skew |
| ReplayCache.RunBounded | team_agents/raven_identity.py:112-118 | neither form ever holds more than max_entries entries |
| ReplayCache.FreshIsAccepted | team_agents/raven_identity.py:116-149 | an admissible signature whose hash was never accepted is refused only for lack of room |
| Delegation.SigningBytesInjective | team_agents/raven_identity.py:496-519 | the signed bytes fix every field, the text up to its digest |
| Delegation.HttpSigningBytesInjective | team_agents/raven_identity.py:351-374 | the same for HTTP requests, the method up to its case and the body up to its digest |
| Delegation.ContextsApart | team_agents/raven_identity.py:351-519 | no delegation and no HTTP request are signed over the same bytes |
| RelayOutcomes.RelayOutcomeStore.ClaimTask | team_agents/relay.py:156-203 | one transaction: sweep, then new, interrupted, completed, corrupt reply, or full with the sweep rolled back; a database error changes nothing; the table stays within its bound |
| RelayOutcomes.RelayOutcomeStore.CompleteTask | team_agents/relay.py:205-227 | completes an existing row, or refuses an oversized reply, a lost claim or a database error without changing anything |
| RelayWorker.GitRelay.ProcessTask | team_agents/relay.py:620-693 | one entry takes a sequence of steps of the state machine |
| RelayWorker.GitRelay.ProcessInbox | team_agents/relay.py:605-713 | the whole poll is a run of the state machine, and counts the replies written |
| Relay.NextKeepsInv | team_agents/relay.py:156-227 | every step of worker, clock and outside world, crashes and database errors included, keeps the invariant on rows, envelope in hand and history, over signatures whose hashes do not collide |
| Relay.AtMostOnce | team_agents/relay.py:605-713 | in every run whose occurring signatures have distinct hashes the brain runs at most once per signature never claimed past expiry, and every reply written for it is the same |
| Relay.AtMostOncePerSignature | team_agents/relay.py:605-713 | with one clock reading per task, for every signature |
| Relay.TaskAnswered | team_agents/relay.py:620-693 | six steps answer a fresh task: one brain run, its reply recorded and written, its file gone, nothing else changed but expired rows |
| Relay.TwoTasksServed | team_agents/relay.py:605-713 | a run serving two tasks that meets the hypotheses of the theorems on runs |
| Relay.LateClaimRunsTwice | team_agents/relay.py:161-167 | without it, every task has a run in which the brain runs twice |
| RelayTwice.ReclaimIff | team_agents/relay.py:161-203 | a task that has run and passed its check again runs a second time if and only if its claim comes at or after the expiry and the table has room |
| RelayTwice.TwiceOnlyByReclaim | team_agents/relay.py:605-713 | in any run, every second brain run stems from such a claim |
| RelayTwice.AtMostTwice | team_agents/relay.py:605-713 | in any run, whatever the clock does between readings and wherever the worker crashes, the brain runs at most twice per signature |
| RelaySpellings.AtMostOncePerSigned | team_agents/relay.py:149-154 | with one clock reading per task and canonical signature texts, at most one brain run per signature and not merely per text |
| RelaySpellings.BothRunIff | team_agents/relay.py:149-203 | two files of one signed task in one poll are both run if and only if the spare bits of their signature texts differ |
| RelayFiles.RemovedIff | team_agents/relay.py:605-713 | a file leaves the inbox only by a failed check or by the unlink after an answer, of the envelope listed for its path; the file that leaves is that envelope if and only if no other arrived over it since the listing |
| RelayFiles.FileRemovedOnlyWhenDone | team_agents/relay.py:691-692 | a file nothing arrived over is unlinked only after its own row was completed and its reply written; otherwise it failed its own check |
| RelayFiles.OverwrittenUnanswered | team_agents/relay.py:384-452 | a genuine, admissible task that arrives over a listed one is unlinked with it, neither run nor answered |
| RelayReplies.ReplyDesk.TakeReplies | team_agents/relay.py:718-781 | the files are read first and then handled one by one, as steps of the delivery machine, with two clock readings and a possible database error per reply |
| RelayReplies.ReplyDesk.AckReplies | team_agents/relay.py:783-801 | the same for acknowledgement; every acknowledged file is gone, and the first that cannot be recorded stops the loop |
| RelayReplies.ReplyRemovedIff | team_agents/relay.py:718-801 | a reply file goes away only by quarantine, or after the reply read from its path was shown and acknowledged; the file that goes is that reply if and only if no other was delivered over it since it was read |
| RelayReplies.RemovedOnlyAfterShown | team_agents/relay.py:718-801 | a file nothing was delivered over goes away only if it failed its own check or was itself shown and acknowledged |
| RelayReplies.OverlaidNeverShown | team_agents/relay.py:718-801 | a reply delivered over one already read is unlinked with it, never shown |
| RelayReplies.AcknowledgedNotTaken | team_agents/relay.py:759-768 | with one clock reading for check and lookup, an acknowledged reply is dropped, never handed out again |
| RelayReplies.HandedOutAgainIff | team_agents/relay.py:759-768 | between two readings it is handed out again if and only if the lookup comes at or after its expiry |
| RelayReplies.TwoRepliesDelivered | team_agents/relay.py:718-801 | a run that meets the hypotheses of these theorems: the acknowledged reply comes back and is dropped before its expiry and handed out again from then on |
| Trust.TrustFiles.CmdTrust | rdap.py:968-1036 | the three writes, rollback and concurrency test leave the files as specified for every combination of failing, crashing and succeeding writes |
| Trust.TrustIsSafe | rdap.py:1007-1036 | if every authorised address was visible, it is so after every interruption and after rollback, successful or not |
| Trust.TrustGrantsLast | rdap.py:1024-1036 | an authorisation is new only if all writes went through, and uninvolved ones are never lost |
| Trust.AlwaysCovered | rdap.py:968-1036 | the same over any number of attempts, each interrupted anywhere |
| Trust.WithoutSafeWrite | rdap.py:1011-1026 | publishing teammates without the first write would leave a replaced identity authorised and unseen |
| TaskStore.BoundedTaskStore.constructor | team_agents/task_store.py:63-81 | a new store is empty and within its limits |
| TaskStore.BoundedTaskStore.Remove | team_agents/task_store.py:101-104 | removes one key and keeps the byte counter exact |
| TaskStore.BoundedTaskStore.PruneExpired | team_agents/task_store.py:106-114 | removes exactly the expired terminal entries |
| TaskStore.BoundedTaskStore.EvictionsFor | team_agents/task_store.py:116-146 | returns the shortest oldest-first prefix of other terminal entries that makes room, or fails when all of them would not |
| TaskStore.BoundedTaskStore.Save | team_agents/task_store.py:148-176 | keeps the counter, both limits and the ban on rejected tasks; evicts that prefix; fails exactly when evicting all would not make room, then leaving all but expired entries |
| TaskStore.BoundedTaskStore.Get | team_agents/task_store.py:178-187 | prunes, then returns the caller's own task |
| TaskStore.BoundedTaskStore.Delete | team_agents/task_store.py:253-257 | prunes, then removes exactly the key |
| TaskStore.BoundedTaskStore.OwnTasks | team_agents/task_store.py:194-201 | gathers exactly the caller's tasks, with distinct non-empty ids |
| TaskStore.CandidatesUnique | team_agents/task_store.py:128-135 | the eviction order is determined by the entries |
| TaskStore.RoomGrows | team_agents/task_store.py:137-143 | evicting further never loses room once made |
| TaskStore.SaveIsFair | team_agents/task_store.py:169-176 | beside the saved key, active tasks are untouched and every evicted entry is no newer than every terminal one that stays |
| TaskStore.BoundedTaskStore.List | team_agents/task_store.py:189-251 | prunes, then pages the listing of exactly the caller's own tasks; an oversized owner, unknown token or bad page size fails |
| TaskListing.PageOf | team_agents/task_store.py:229-251 | the search for the named task and the slice compute the specified page |
| TaskListing.ListingIs | team_agents/task_store.py:204-228 | the three filters and the reverse sort give exactly the matching tasks, each once, strictly newest first |
| TaskListing.ListingForgetsOrder | team_agents/task_store.py:194-228 | a listing depends on the tasks alone, not on dictionary order |
| TaskListing.PagesCoverListing | team_agents/task_store.py:229-251 | following page tokens shows every task of a listing exactly once, in order |
| TaskListing.TokenKeepsPlace | team_agents/task_store.py:229-251 | between two requests an unchanged task is neither skipped nor repeated if and only if the task named by the token compares with it as before |
| TaskListing.ShownTwice | team_agents/task_store.py:229-251 | when the named task is saved again meanwhile, a task of the first page can be shown twice |

## Left out

- The cryptographic functions themselves (SHA-2, SHA-3, HMAC, HKDF, Ed25519, X25519, ML-KEM, ChaCha20-Poly1305) and the receiving half of the elliptic-curve ratchet of hybrid_ratchet_v2_tr.py are parameters.
- The output and journal forms RVBO1 and RVBJ1, which have no decoder here, and the digests of `transition_prepare`.
- BraidConfirm.ConfirmationBinds: supposes that the ciphertext opens under no other associated data; that is the promise of the AEAD.
- The snapshot dictionary returned beside each store operation, other than the store hash.
- TaskListing.ListingIs: timestamps are compared as the JSON text the protobuf library gives for them; that text is a parameter, as is the encoding of page tokens.
- Base64 texts with more padding than their last group needs: what the standard library makes of them depends on its version, and none of them stands for 64 bytes.
- Case folding and white space beyond ASCII, in addresses, hexadecimal text and HTTP methods.
- SQLite, git, file locks, symlink and quarantine handling, directory limits and the JSON form of envelopes: a durable write is an atomic map update.
- HTTP, A2A, mDNS, mailbox and IPC plumbing, the command line, configuration, brains and tools.
- Seed derivation and rollback classification in the anchor module, fixed-width record signers, fingerprints, routing and mailbox tags: easy members only.
