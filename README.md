# Zebra node core, modelled in Dafny

This project models part of Zebra, a Zcash full node written in Rust, and proves properties of the model. It covers:

- **Mempool storage.** The verified-transaction cache and its rejection map: `insert`, `contains`, `remove_exact`, `remove_same_effects`, the queries and `clear`.
- **Chain sync.** The syncer's tip-following rules in `obtain_tips` and `extend_tips`. These trim responses, find the first unknown hash, build a `CheckedTip`, update the prospective tips and extend the ordered download set. It also covers `should_restart_sync`, which classifies download and verify errors.
- **`addrv2` entries (ZIP 155).** The entry decoder, the conversion to a gossiped `MetaAddr`, the minimum encoded size and the preallocation bound.
- **`InventoryHash`.** The entry codec, as its property tests fix it.
- **`validate_addrs`.** The candidate set's clean-up of gossiped last-seen times, as its tests fix it.
- **Best tip height.** The state service's tracker, which publishes the larger of the finalized and non-finalized heights only when it changes. Also the receiver used by the network stack, which prefers the non-finalized height.
- **`MinimumPeerVersion`.** How `current` and `changed` behave, as their tests fix it.
- **Small value types.** The Orchard raw payment-address encoding (section 5.6.4.1 of the Zcash Protocol Specification), `PeerMetaData` equality, and `DecoderOutput`.

Form of the model:

- Code that changes state in place is modelled as Dafny classes. Each method is proved against a pure specification function of the old state:
  - `MempoolStorage.Storage`
  - `Sync.ChainSync`
  - `BestTipHeightTracker.BestTipHeight`
  - `PeerVersion.MinimumPeerVersion`
- Decoders, rules and value types are modelled as functions over datatypes and byte sequences, with lemmas about them.
- Byte-level reading helpers are shared in the `Serialization` module:
  - little-endian and big-endian integers;
  - CompactSize (Bitcoin's variable-length integer encoding);
  - length-checked byte reads, which fail with an I/O error as the Rust reader does.

Files:

| file | module |
|---|---|
| wrappers.dfy | `Wrappers` (the shared `Option` and `Result` types) |
| serialization.dfy | `Serialization` |
| net_types.dfy | `NetTypes` |
| addr_v2.dfy | `AddrV2Codec` |
| inventory_hash.dfy | `InventoryHashCodec` |
| validate_addrs.dfy | `ValidateAddrs` |
| mempool_storage.dfy | `MempoolStorage` |
| sync.dfy | `Sync` |
| best_tip_height.dfy | `BestTipHeightTracker` |
| best_tip_height_receiver.dfy | `BestTipHeightReceiver` |
| minimum_peer_version.dfy | `PeerVersion` |
| orchard_address.dfy | `OrchardAddress` |
| peer_meta_data.dfy | `PeerMetaDatas` |
| decoder_output.dfy | `DecoderOutputs` |

## Model

| member | source | states |
|---|---|---|
| Serialization.ReadBytes | zebra-network/src/protocol/external/addr/v2.rs:133 | Reading n bytes succeeds exactly when n bytes remain; otherwise it is an I/O error. The bytes read followed by the rest are the input. |
| Serialization.ReadLE | zebra-network/src/protocol/external/addr/v2.rs:119-120 | A k-byte little-endian read succeeds exactly when k bytes remain; otherwise it is an I/O error. The value is below 256^k, and the rest is the input after k bytes. |
| Serialization.FromLEBound | zebra-network/src/protocol/external/addr/v2.rs:119-120 | A k-byte little-endian value is below 256^k. |
| Serialization.FromLEOfToLE | zebra-network/src/protocol/external/addr/v2.rs:119-120 | Decoding the k-byte little-endian encoding of a value below 256^k gives the value back. |
| Serialization.ToLEOfFromLE | zebra-network/src/protocol/external/addr/v2.rs:119-120 | Re-encoding the value of any byte string gives the same bytes, so the encoding is onto. |
| Serialization.FromLEZero | zebra-network/src/protocol/external/tests/prop.rs:44 | A little-endian value is zero exactly when all its bytes are zero. |
| Serialization.ReadLECanonical | zebra-network/src/protocol/external/addr/v2.rs:119-120 | A successful read consumed exactly the encoding of the value it returned. |
| Serialization.ReadByteCanonical | zebra-network/src/protocol/external/addr/v2.rs:129 | A successful one-byte read (the network id) returns that byte and the rest. |
| Serialization.ReadU16BE | zebra-network/src/protocol/external/addr/v2.rs:135-136 | The port is read big-endian: it succeeds exactly when 2 bytes remain, and the value is `256*b0 + b1`. |
| Serialization.ReadU16BEOfEncoding | zebra-network/src/protocol/external/addr/v2.rs:135-136 | Reading the big-endian encoding of any u16 gives it back and leaves the rest. |
| Serialization.ReadU16BECanonical | zebra-network/src/protocol/external/addr/v2.rs:135-136 | A successful big-endian read consumed exactly the encoding of its value. |
| Serialization.ReadCompactSize | zebra-network/src/protocol/external/addr/v2.rs:122-123 | A CompactSize value is below 2^64. A successful read consumes at least one byte and leaves a suffix of the input. |
| Serialization.CompactSizeRoundTrip | zebra-network/src/protocol/external/addr/v2.rs:122-123 | Reading the canonical CompactSize encoding of any u64 gives it back and leaves the rest. |
| Serialization.CompactSizeCanonical | zebra-network/src/protocol/external/addr/v2.rs:131-133 | A successful CompactSize read consumed exactly the canonical encoding of its value. Non-minimal encodings are rejected. |
| NetTypes.FromBitsTruncate | zebra-network/src/protocol/external/addr/v2.rs:124 | `from_bits_truncate` keeps exactly the known service bits and clears every other bit. |
| AddrV2Codec.ReadEntry | zebra-network/src/protocol/external/addr/v2.rs:118-136 | The five fields are read in wire order. Any entry read has a services value and an address length below 2^64. |
| AddrV2Codec.Encode | zebra-network/src/protocol/external/addr/v2.rs:197-205 | The wire encoding of an entry is at least ADDR_V2_MIN_SIZE = 9 bytes. |
| AddrV2Codec.ReadEncoded | zebra-network/src/protocol/external/addr/v2.rs:118-136 | Reading the encoding of any entry, followed by any bytes, gives the entry back and leaves those bytes. |
| AddrV2Codec.ReadEntryCanonical | zebra-network/src/protocol/external/addr/v2.rs:118-136 | A successful read consumed exactly the encoding of the entry it returned. |
| AddrV2Codec.Validate | zebra-network/src/protocol/external/addr/v2.rs:138-193 | An entry is rejected exactly when its address is longer than 512 bytes, or is not 4 bytes for network id 1, or is not 16 bytes for network id 2. The 512-byte check comes first and gives its own error. An accepted entry is `Unimplemented` exactly when its network id is neither 1 nor 2. Otherwise it is an IP address of the family its id names, with a valid length and the entry's time and port. `DecodeEncoded` states every outcome. |
| AddrV2Codec.Decode | zebra-network/src/protocol/external/addr/v2.rs:117-195 | A decoded IP address has the length of its family: 4 bytes for IPv4, 16 for IPv6. |
| AddrV2Codec.DecodeEncoded | zebra-network/src/protocol/external/addr/v2.rs:138-193 | It gives the outcome for every encoded entry: <br>• an address field over 512 bytes is rejected first, whatever the network id; <br>• id 1 gives IPv4 if the field has 4 bytes, and the IPv4 length error otherwise; <br>• id 2 gives IPv6 if the field has 16 bytes, and the IPv6 length error otherwise; <br>• any other id gives `Unimplemented`, with the bytes consumed. <br>Services are truncated to the known bits, and the rest is left unread. |
| AddrV2Codec.DecodeConsumesMinSize | zebra-network/src/protocol/external/addr/v2.rs:197-205 | A successful decode consumes at least ADDR_V2_MIN_SIZE bytes and leaves a suffix of the input. |
| AddrV2Codec.ToMetaAddr | zebra-network/src/protocol/external/addr/v2.rs:90-110 | `Unimplemented` gives no address. An IP entry gives a gossiped `MetaAddr` at `(ip, port)`, with its services and last-seen time unchanged. |
| AddrV2Codec.DecodeEntries | zebra-network/src/protocol/external/addr/v2.rs:197-213 | Decoding `count` entries yields `count` values and consumes at least `count * 9` bytes. |
| AddrV2Codec.MaxAllocationSuffices | zebra-network/src/protocol/external/addr/v2.rs:207-213 | No list that fits in a protocol message after its 3-byte length prefix has more than `(MAX_PROTOCOL_MESSAGE_LEN - 3) / 9` entries. |
| InventoryHashCodec.Encode | zebra-network/src/protocol/external/tests/prop.rs:11-14 | An encoding is 36 bytes, or 68 for `Wtx`, which is the maximum. |
| InventoryHashCodec.Decode | zebra-network/src/protocol/external/tests/prop.rs:32-61 | A successful decode consumes part of its input. |
| InventoryHashCodec.CodeOfHeader | zebra-network/src/protocol/external/tests/prop.rs:44 | The 4-byte code is its low byte when bytes 1..4 are zero, and at least 256 otherwise. |
| InventoryHashCodec.DecodeCases | zebra-network/src/protocol/external/tests/prop.rs:37-60 | Decoding by cases: <br>• fewer than 36 bytes is an I/O error, whatever the code; <br>• otherwise, an invalid code (bytes 1..4 not all zero, byte 0 > 5, or byte 0 = 4) is `Parse("invalid inventory code")`; <br>• code 5 with fewer than 68 bytes is an I/O error; <br>• anything else decodes, with the variant of its code, and leaves the trailing bytes. |
| InventoryHashCodec.RoundTrip | zebra-network/src/protocol/external/tests/prop.rs:17-30 | Decoding the encoding of any inventory hash, followed by any bytes, gives it back and leaves those bytes. |
| ValidateAddrs.Newest | zebra-network/src/peer_set/candidate_set/tests/vectors.rs:42-47 | The newest last-seen time bounds every time in the batch and is one of them (0 for an empty batch). |
| ValidateAddrs.Oldest | zebra-network/src/peer_set/candidate_set/tests/vectors.rs:119-131 | The oldest last-seen time is below every time in the batch and is one of them (`u32::MAX` for an empty batch). |
| ValidateAddrs.Shift | zebra-network/src/peer_set/candidate_set/tests/vectors.rs:88-95 | Every address keeps its position and all its fields except the last-seen time, which moves back by the offset. |
| ValidateAddrs.Validate | zebra-network/src/peer_set/candidate_set/tests/prop.rs:8-21 | No validated address is later than the limit. The batch is either dropped whole or kept whole. |
| ValidateAddrs.PastUnchanged | zebra-network/src/peer_set/candidate_set/tests/vectors.rs:52-115 | A batch with no time after the limit is returned unchanged, including one whose newest time equals the limit. |
| ValidateAddrs.FutureShifted | zebra-network/src/peer_set/candidate_set/tests/vectors.rs:28-96 | If a time lies after the limit and nothing underflows, every address is moved back by `newest - limit`, past ones included. The newest lands on the limit. Addresses, services and order are kept. |
| ValidateAddrs.UnderflowRejected | zebra-network/src/peer_set/candidate_set/tests/vectors.rs:117-131 | If applying the offset would take any time below the epoch, the whole batch is dropped. |
| ValidateAddrs.UnderflowExample | zebra-network/src/peer_set/candidate_set/tests/vectors.rs:119-131 | The batch with times 0, the limit and `u32::MAX` is dropped. |
| MempoolStorage.LastN | zebrad/src/components/mempool/storage/tests.rs:72-86 | What the verified set keeps: its newest MEMPOOL_SIZE entries (all of them when fewer), as a suffix. |
| MempoolStorage.VerifiedInsert | zebrad/src/components/mempool/storage.rs:87-89 | The inserted transaction is the newest entry of the verified set. |
| MempoolStorage.Filter | zebrad/src/components/mempool/storage.rs:145-151 | The filtered transactions are exactly those of the input that satisfy the predicate. |
| MempoolStorage.InsertCachedRejection | zebrad/src/components/mempool/storage.rs:65-68 | A transaction with a cached rejection is rejected, and nothing changes. |
| MempoolStorage.InsertDuplicate | zebrad/src/components/mempool/storage.rs:70-76 | A transaction already in the mempool gives `InMempool`, and nothing changes. |
| MempoolStorage.InsertSpendConflict | zebrad/src/components/mempool/storage.rs:78-85 | A transaction that spends an input already spent in the mempool is rejected, and recorded as `SpendConflict`. The verified set is unchanged. |
| MempoolStorage.InsertAccepted | zebrad/src/components/mempool/storage.rs:87-91 | A new transaction with no conflict is inserted and its id returned. The verified set keeps its last MEMPOOL_SIZE entries, and the rejection map is unchanged. |
| MempoolStorage.InsertKeepsValid | zebrad/src/components/mempool/storage.rs:62-92 | Insertion keeps the verified set within MEMPOOL_SIZE, with distinct ids and no spend conflicts. |
| MempoolStorage.InsertRunKeepsLast | zebrad/src/components/mempool/storage/tests.rs:62-86 | Inserting a run of new, conflict-free transactions leaves exactly the last MEMPOOL_SIZE of them, in order, after the transactions already stored. |
| MempoolStorage.InsertRunFromEmpty | zebrad/src/components/mempool/storage/tests.rs:62-86 | From an empty mempool, inserting at least MEMPOOL_SIZE transactions leaves exactly MEMPOOL_SIZE. The last MEMPOOL_SIZE are contained and every earlier one is not. |
| MempoolStorage.RemoveAllThat | zebrad/src/components/mempool/storage.rs:115-136 | Removal deletes exactly the matching transactions: the count removed plus the count kept equals the count before. It keeps distinct ids and the absence of spend conflicts. |
| MempoolStorage.FilterConcat | zebrad/src/components/mempool/storage.rs:111 | Filtering preserves the order of the remaining transactions. |
| MempoolStorage.Storage.constructor | zebrad/src/components/mempool/storage.rs:47-55 | A new storage is empty and valid. |
| MempoolStorage.Storage.Insert | zebrad/src/components/mempool/storage.rs:62-92 | The new state and the result are those of `InsertPool`, whose four cases the lemmas above state. Validity is kept, and an accepted transaction is contained. |
| MempoolStorage.Storage.Contains | zebrad/src/components/mempool/storage.rs:94-98 | A transaction is contained exactly when its id is among `TxIds()`. |
| MempoolStorage.Storage.RemoveExact | zebrad/src/components/mempool/storage.rs:100-118 | It removes every transaction whose full id is listed, keeps the order of the others and leaves `rejected` unchanged. It returns the number removed. |
| MempoolStorage.Storage.RemoveSameEffects | zebrad/src/components/mempool/storage.rs:120-136 | It removes every transaction whose mined id is listed, keeps the order of the others and leaves `rejected` unchanged. It returns the number removed. |
| MempoolStorage.Storage.TxIds | zebrad/src/components/mempool/storage.rs:138-141 | The ids of the verified transactions, in order. |
| MempoolStorage.Storage.Transactions | zebrad/src/components/mempool/storage.rs:143-151 | Exactly the stored transactions whose ids are requested. |
| MempoolStorage.Storage.TransactionsAll | zebrad/src/components/mempool/storage.rs:153-156 | The same as requesting every stored id. |
| MempoolStorage.Storage.ContainsRejected | zebrad/src/components/mempool/storage.rs:158-163 | An id is rejected exactly when it has a rejection error. |
| MempoolStorage.Storage.RejectionError | zebrad/src/components/mempool/storage.rs:165-169 | The cached rejection reason, exactly when one is recorded. |
| MempoolStorage.Storage.RejectedTransactions | zebrad/src/components/mempool/storage.rs:171-177 | Exactly the requested ids that are rejected. |
| MempoolStorage.Storage.Clear | zebrad/src/components/mempool/storage.rs:179-182 | It empties the verified set and keeps the rejection map. |
| Sync.DropLast | zebrad/src/components/sync.rs:517-520 | An empty response is skipped. Otherwise the result, followed by the last hash, is the response. |
| Sync.FirstUnknownIndex | zebrad/src/components/sync.rs:522-536 | The index of the first hash the state does not hold: every earlier hash is held. If there is none, every hash is held. |
| Sync.FirstUnknown | zebrad/src/components/sync.rs:522-528 | The loop finds the index that `FirstUnknownIndex` specifies. |
| Sync.NewTip | zebrad/src/components/sync.rs:540-548 | A tip exists exactly when at least two hashes remain. It is the second-to-last hash, expecting the last. |
| Sync.ExtendMatch | zebrad/src/components/sync.rs:641-673 | A response continues the tip exactly when its first or second hash is the expected next one. The hashes after that match are used, with the first position tried first. |
| Sync.UpdateTips | zebrad/src/components/sync.rs:550-563 | If the new tip's expected hash is already queued, nothing changes. Otherwise the new tip replaces every tip that expects one of the new hashes, and the other tips are kept. |
| Sync.AcceptHashes | zebrad/src/components/sync.rs:540-571 | A list of fewer than two hashes changes nothing. Otherwise the old download set stays a prefix, and the new set holds exactly the old hashes and the list's. The tip update is stated by `ObtainAccepted` and `ExtendAccepted`, and coverage by `AcceptKeepsCovered`. |
| Sync.ExtendDownloadSet | zebrad/src/components/sync.rs:565-571 | The old download set is a prefix of the new one. The new set holds exactly the old and the added hashes, with no hash twice. |
| Sync.ExtendDownloadSetOrder | zebrad/src/components/sync.rs:565-571 | The added hashes follow the old set in the order of their first occurrence in the response, skipping those already present. This is the order in which `request_blocks` receives them. |
| Sync.ExtendDownloadSetGrowth | zebrad/src/components/sync.rs:568-571 | The download set grows by exactly the number of distinct added hashes it did not hold. |
| Sync.AcceptKeepsCovered | zebrad/src/components/sync.rs:540-571 | Accepting a response keeps every tip's hashes queued and the download set free of duplicates. A response with fewer than two hashes changes nothing. |
| Sync.ObtainStep | zebrad/src/components/sync.rs:509-578 | A network error changes nothing. No response removes a queued hash: the old download set stays a prefix of the new one. Which responses are discarded is stated by `ObtainIgnored`, and what an accepted one does by `ObtainAccepted`. |
| Sync.ObtainIgnored | zebrad/src/components/sync.rs:517-548 | A response is ignored when it has at most one hash, when the state holds every hash but the last, or when fewer than two unknown hashes remain. |
| Sync.ObtainAccepted | zebrad/src/components/sync.rs:517-571 | Otherwise the unknown hashes, without the last, are queued, and the tips are updated with the tip made from them. |
| Sync.ObtainAllCovered | zebrad/src/components/sync.rs:497-579 | After all `obtain_tips` responses, every prospective tip's hashes are queued. |
| Sync.ObtainFromNoTipsCovered | zebrad/src/components/sync.rs:497-579 | The same, starting from no tips. |
| Sync.ExtendStep | zebrad/src/components/sync.rs:629-724 | A network error changes nothing. No response removes a queued hash: the old download set stays a prefix of the new one. Discarded responses are stated by `ExtendMismatchIgnored` and `ExtendShortIgnored`, and accepted ones by `ExtendAccepted`. |
| Sync.ExtendMismatchIgnored | zebrad/src/components/sync.rs:641-673 | A response whose first two hashes are not the expected one is ignored. |
| Sync.ExtendAccepted | zebrad/src/components/sync.rs:641-717 | A response that continues the tip, with at least two hashes left after the matched one once the last is dropped, queues those hashes. The new tip made from the last two of them replaces the tips whose expected hash is in the list, unless that tip's expected hash is already queued. |
| Sync.ExtendShortIgnored | zebrad/src/components/sync.rs:676-692 | A response that continues the tip but leaves fewer than two hashes after the matched one, once the last is dropped, is discarded. |
| Sync.ExtendAllCovered | zebrad/src/components/sync.rs:629-725 | All responses for one tip keep every tip's hashes queued. |
| Sync.ExtendTipsAllCovered | zebrad/src/components/sync.rs:605-726 | After `extend_tips`, every prospective tip's hashes are queued. |
| Sync.ChainSync.constructor | zebrad/src/components/sync.rs:333-355 | The lookahead limit must be at least MIN_LOOKAHEAD_LIMIT. The syncer starts with no tips and no requests. |
| Sync.ChainSync.ObtainTips | zebrad/src/components/sync.rs:460-602 | The prospective tips are those of the specification fold over the responses, in arrival order. It fails with the behind-tip error exactly when the state holds a queued hash, and then nothing is requested. Otherwise the download set is requested and its length recorded. |
| Sync.ChainSync.ObtainFromResponse | zebrad/src/components/sync.rs:509-578 | Processing one `obtain_tips` response leaves the prospective tips and the download set of `ObtainStep`. The queued requests and the recorded lengths do not change. |
| Sync.ChainSync.ExtendTips | zebrad/src/components/sync.rs:605-739 | The tips are taken. The tips and the download set are those of the specification fold over each tip's responses. The download set is requested and its length recorded. |
| Sync.ChainSync.ExtendFromTip | zebrad/src/components/sync.rs:629-725 | Processing one tip's responses in arrival order leaves the prospective tips and the download set of the specification fold over those responses. The queued requests and the recorded lengths do not change. |
| Sync.ShouldRestartSync | zebrad/src/components/sync.rs:813-889 | Decides from a download or verify error whether the sync restarts. Its contract is stated by `RestartUnlessExpected`: it restarts exactly on errors that are not expected. `MarkersAnywhere` states that the two text markers work wherever they appear. |
| Sync.RestartUnlessExpected | zebrad/src/components/sync.rs:813-889 | The sync restarts exactly on the errors that are not expected during a normal sync, so the catch-all arm receives no expected error. The expected errors fall into four groups: <br>• the block was already handled by an earlier run (already verified, already in the chain, or a commit error reporting an already committed block); <br>• the work was cancelled; <br>• the block is behind the tip; <br>• the peer did not have the block (a download error whose text contains `NotFound`). |
| Sync.MarkersAnywhere | zebrad/src/components/sync.rs:845-859 | Those two texts suppress a restart wherever the marker appears in the error text. |
| BestTipHeightTracker.Best | zebra-state/src/service/best_tip_height.rs:60-64 | The best height is at least the finalized and the non-finalized height, and is one of them. |
| BestTipHeightTracker.NewTracker | zebra-state/src/service/best_tip_height.rs:21-34 | A new tracker is valid, and its channel holds only the genesis height. |
| BestTipHeightTracker.UpdateValid | zebra-state/src/service/best_tip_height.rs:56-70 | After `update`, the active value is the best height and the channel's latest value. A value is sent exactly when it differs from the active one, so consecutive sends differ. Earlier values are kept. |
| BestTipHeightTracker.SetFinalizedValid | zebra-state/src/service/best_tip_height.rs:36-44 | `set_finalized_height` stores the height and keeps the tracker valid. Setting the stored height changes nothing. |
| BestTipHeightTracker.SetNonFinalizedValid | zebra-state/src/service/best_tip_height.rs:46-54 | `set_best_non_finalized_height` stores the height and keeps the tracker valid. Setting the stored height changes nothing. |
| BestTipHeightTracker.ApplyAllValid | zebra-state/src/service/best_tip_height.rs:39-70 | After any sequence of setter calls: <br>• the channel's latest value is the best height, never below the finalized one; <br>• no two consecutive sends are equal; <br>• earlier values are kept. |
| BestTipHeightTracker.PropertyScenario | zebra-state/src/service/best_tip_height/tests/prop.rs:9-29 | The property test's scenario: the channel holds the larger height when both are set, or the one that is set. When neither is set, it holds the genesis height (see "Left out"). |
| BestTipHeightTracker.BestTipHeight.constructor | zebra-state/src/service/best_tip_height.rs:21-34 | The object starts in `NewTracker()`. |
| BestTipHeightTracker.BestTipHeight.SetFinalizedHeight | zebra-state/src/service/best_tip_height.rs:39-44 | The new state is `SetFinalized` of the old, and stays valid. |
| BestTipHeightTracker.BestTipHeight.SetBestNonFinalizedHeight | zebra-state/src/service/best_tip_height.rs:49-54 | The new state is `SetNonFinalized` of the old, and stays valid. |
| BestTipHeightTracker.BestTipHeight.Update | zebra-state/src/service/best_tip_height.rs:60-70 | The new state is `Updated` of the old. |
| BestTipHeightReceiver.NewReceiver | zebra-state/src/best_tip_height_receiver.rs:19-33 | A new receiver's finalized channel holds height 1, and its non-finalized channel holds nothing. |
| BestTipHeightReceiver.BestTipHeight | zebra-state/src/best_tip_height_receiver.rs:41-47 | It returns the non-finalized height when there is one, and the finalized height otherwise. It is always one of the two. |
| BestTipHeightReceiver.NewReceiverHeight | zebra-state/src/best_tip_height_receiver.rs:19-47 | A fresh receiver reports height 1. |
| BestTipHeightReceiver.AgreesWithBestIff | zebra-state/src/best_tip_height_receiver.rs:44-47 | The receiver agrees with the tracker's maximum exactly when there is no non-finalized height or it is not below the finalized one. |
| BestTipHeightReceiver.LowerNonFinalizedReported | zebra-state/src/best_tip_height_receiver.rs:39-47 | A non-finalized height below the finalized one is reported as it is, below the maximum. |
| PeerVersion.MinimumPeerVersion.constructor | zebra-network/src/peer/minimum_peer_version/tests.rs:55-61 | A new tracker has no tip height, the minimum for no height, and a pending change. |
| PeerVersion.MinimumPeerVersion.SetBestTipHeight | zebra-network/src/peer/minimum_peer_version/tests.rs:87-113 | The mock chain tip's new height. Nothing else changes. |
| PeerVersion.MinimumPeerVersion.Update | zebra-network/src/peer/minimum_peer_version/tests.rs:64-77 | The minimum is recomputed for the tip height, and a change is noted exactly when it differs. |
| PeerVersion.MinimumPeerVersion.Current | zebra-network/src/peer/minimum_peer_version/tests.rs:13-27 | `current()` is `min_remote_for_height(network, tip height)`. |
| PeerVersion.MinimumPeerVersion.Changed | zebra-network/src/peer/minimum_peer_version/tests.rs:58-82 | `changed()` returns the current minimum exactly when it changed since the last report, or was never reported, and nothing otherwise. The change is then marked as reported. |
| PeerVersion.Expected | zebra-network/src/peer/minimum_peer_version/tests.rs:58-83 | The test's expected reports: one per update plus the first, starting with the minimum for no height. |
| PeerVersion.TracksChainTip | zebra-network/src/peer/minimum_peer_version/tests.rs:29-47 | After each tip height sent, `current()` is the minimum for that height. |
| PeerVersion.ReportsChangesCorrectly | zebra-network/src/peer/minimum_peer_version/tests.rs:49-84 | Over any sequence of updates, the reports of `changed()` are exactly the test's expected reports. |
| OrchardAddress.New | zebra-chain/src/orchard/address.rs:21-26 | `Address::new` stores its components unchanged. |
| OrchardAddress.RawEncoding | zebra-chain/src/orchard/address.rs:42-52 | The encoding is 43 bytes: the diversifier in bytes 0..11, then the transmission key in bytes 11..43. |
| OrchardAddress.Split | zebra-chain/src/orchard/address.rs:45-49 | Splitting 43 bytes at byte 11 gives the two component encodings. |
| OrchardAddress.ToRawBytes | zebra-chain/src/orchard/address.rs:42-52 | Filling the zeroed 43-byte buffer with the two slice copies gives `RawEncoding`. |
| OrchardAddress.SplitEncoding | zebra-chain/src/orchard/address.rs:42-52 | Splitting the encoding recovers the address. |
| OrchardAddress.EncodingOfSplit | zebra-chain/src/orchard/address.rs:42-52 | Every 43-byte string is the encoding of the address it splits into. |
| OrchardAddress.EncodingInjective | zebra-chain/src/orchard/address.rs:42-52 | Two addresses have the same encoding exactly when they are equal. |
| PeerMetaDatas.New | zebra-network/src/peer/meta_data.rs:16-19 | `new` stores the address and version given. |
| PeerMetaDatas.AccessorsOfNew | zebra-network/src/peer/meta_data.rs:16-29 | `address()` and `version()` return what `new` was given. |
| PeerMetaDatas.EqIffSameAddress | zebra-network/src/peer/meta_data.rs:41-45 | Two values are equal exactly when their addresses are, whatever their versions. |
| PeerMetaDatas.EqIsEquivalence | zebra-network/src/peer/meta_data.rs:41-47 | The equality is reflexive, symmetric and transitive, as `Eq` requires. |
| DecoderOutputs.FromMessage | zebra-network/src/protocol/external/decoder_output.rs:13-17 | A message converts to a complete output holding it. |
| DecoderOutputs.IntoCompleteMessage | zebra-network/src/protocol/external/decoder_output.rs:21-26 | A message is returned exactly for a complete output, and it is that output's message. |
| DecoderOutputs.RoundTrip | zebra-network/src/protocol/external/decoder_output.rs:13-26 | Converting a message to an output and back gives `Some` of it. |
| DecoderOutputs.Inverse | zebra-network/src/protocol/external/decoder_output.rs:13-26 | A returned message converts back to the same output. No message is returned exactly for `Incomplete`. |

## Left out

- **Asynchrony and I/O.**
  - Left out: the futures, `await` points, fan-out requests, timeouts, hedging, retries and task spawning of the syncer and the network stack. Requests to peers and to the state service are replaced by their answers, passed as parameters: the `FindBlocks` responses in arrival order, and the set of hashes the state holds.
  - Also left out: the state service's errors, which `?` propagates, and the `request_blocks` call, which is modelled as appending to `requested`.
- **Parts of the syncer not modelled.** The sync loop, block locators, genesis download, `request_genesis` and the download/verify stream are not modelled. So are the `recent_syncs` bookkeeping beyond recording each length, and the tracing and metrics calls, which use floating point.
- **`should_restart_sync`'s fallback check.** The `Debug`-string check in the fallback branch only logs, so it is not modelled. Debug texts are plain strings.
- **Iteration order of `extend_tips`.** The order in which `extend_tips` visits the `HashSet` of tips is not fixed by the code, so it is a parameter (`order`). Any duplicate-free listing of the tips is allowed.
- **Constants.** `MAX_CHECKPOINT_HEIGHT_GAP` is defined outside the modelled files and is taken as 400. The lookahead limit is only checked at construction.
- **Unbounded integers.** Heights, versions and block hashes are unbounded naturals. `block::Height`'s maximum and the 32-byte hash representation are not modelled.
- **`VerifiedSet`.** `VerifiedSet` is not part of this model. It is modelled as an insertion-ordered sequence that keeps its newest MEMPOOL_SIZE entries, as the storage tests expect. Spend conflicts are modelled as overlapping sets of spent outputs and nullifiers.
- **Evicted transactions.** The storage code records no rejection when `VerifiedSet` evicts a transaction, so the model records none either. The doc comment at zebrad/src/components/mempool/storage.rs:59-61 and the test at zebrad/src/components/mempool/storage/tests.rs:75-76 expect evicted transactions to be tracked as `RandomlyEvicted`. That depends on the unseen `VerifiedSet`, so it is not claimed as a finding.
- **`clear`.** `Storage::clear` empties only the verified set, and the model follows the code. The test at zebrad/src/components/mempool/storage/tests.rs:149-160 expects a previously rejected transaction to be accepted after `clear`.
- **The error conversion into `MempoolError`.** The conversion drops the storage reason: `MempoolError` has only `Rejected` and `InMempool`, as the tests compare against a bare `Rejected`.
- **The transaction verification error inside `FailedVerification`.** It is a string.
- **CompactSize.** CompactSize and the byte-vector reader are defined outside the modelled files. They are modelled from the canonical Bitcoin CompactSize encoding, and non-minimal encodings are rejected. The byte-vector reader's allocation limit is not modelled.
- **`InventoryHash` and `validate_addrs`.** Their implementations are not part of this model. Both are modelled from the behaviour their tests fix.
- **`validate_addrs` timestamps.** The `chrono` conversions are not modelled. Times are `DateTime32` seconds.
- **Untested `InventoryHash` variants.** `Error` is encoded with an all-zero hash. Other unknown variants do not exist in the model.
- **`MinimumPeerVersion`.** Its implementation is not part of this model, and neither is `Version::min_remote_for_height`.
  - The class is a reconstruction whose behaviour is the one the tests fix: the minimum is recomputed on each query, and a change flag is set at construction.
  - The network-upgrade table is a function-valued parameter.
  - The mock chain tip is modelled by the field `chainTip`.
- **Orchard transmission keys.** Orchard transmission keys are represented by their 32-byte encodings. Point compression and the validity of curve points are not modelled. The 11-byte `Diversifier` conversion is its byte array.
- **The receiver's watch channels.** They are modelled by their current values. Change notification and the borrow guard are concurrency.
- **BestTipHeightTracker.PropertyScenario.** It states what the code publishes, a plain height. The property test at zebra-state/src/service/best_tip_height/tests/prop.rs:21-29 compares the channel with an `Option`. When neither height is given, it expects `None`, but the code publishes the genesis height 0.
- **The message codec.** The codec and its message round trip are not modelled: the codec is not among the modelled files.
- **Files with nothing to verify.** The peer connector, client and connection plumbing, the load-tracked client, the discoverer, the mempool crawler, metrics, the RPC stub, the command-line wallet command and configuration, and the state-service test transcripts are not modelled. They are I/O, foreign code or tests of them.
- **AddrV2Codec.ReadEntry.** Its contract states only that fields read are in range. What it reads is stated by `ReadEncoded` and `ReadEntryCanonical`.
- **InventoryHashCodec.Decode.** Its contract states only progress. Its behaviour is stated by `DecodeCases` and `RoundTrip`.
- **AddrV2Codec.DecodeEntries.** The entry count is a parameter. Reading the CompactSize count in front of the entries, and the generic vector reader's rejection of counts above `max_allocation()`, are not modelled. `MaxAllocationSuffices` states only that no entry list fitting in one protocol message has more entries than that limit.
