# Verified model of the wallet gateway

This project models the parts of the wallet whose mistakes cost money: the broadcast idempotency guard of
the Go gateway, the parsers that decide what may be broadcast or signed, and the code that keeps the
gateway up when its providers are not. `dafny verify dfyconfig.toml` checks all of it.

## The broadcast guard

A signed transaction must reach a node at most once per claim, although several gateway processes serve
the same wallet, any store operation may fail without saying whether it took effect, and a process may
crash. The guard is modelled on three levels that share one specification:

- `GuardState.dfy` gives one instance as a value (records by key, list of evictable keys) and every critical
  section as a function or relation on it.
- `ExpiryHeap.dfy` and `BroadcastGuard.dfy` are the mutable structures: a map, a binary heap whose nodes carry
  their own index so that any of them can be removed, and the eviction list. Every method is proved to compute
  the function of `GuardState` and to keep the three structures coherent.
- `BroadcastProtocol.dfy` runs any number of instances and requests over one store as a state machine whose
  steps are those same functions; `BroadcastSafety.dfy` proves the invariant, `BroadcastTheorems.dfy` what follows
  for every run, `BroadcastSettling.dfy` what is remembered and told when requests are over,
  `BroadcastAvailability.dfy` when a key that nobody submits is free again, and
  `BroadcastStaleness.dfy` and `BroadcastOverflow.dfy` the runs that show where promises end.

Assumed of the environment, and stated in `BroadcastProtocol.Next`: a request ends within its 25 second budget
plus the one second its outcome may take to persist; the store is atomic and retains what it holds for its
TTL, which the comment on `AtomicStore` (`backend/gateway/internal/cache/cache.go:29-36`) demands of it; the
clocks agree and do not run backwards. A write may fail and yet take effect, at once or later, once or several
times, even after its instance has crashed; later means within a delay that each run fixes, and that may be any.
Spacing does not depend on the delay, the age of a reply does.

That an owner contacts at most one endpoint is derived, not assumed: the attempt step is a write through the
pool as `UpstreamPool.AskedOnce` describes it, which is what `Pool.CallOnce` is proved to do, and the calls are
counted in the endpoints' histories. For TRON, which has one host and no pool, it is one exchange, sent or not
(`backend/gateway/internal/upstream/tron.go:95-126`).

Four promises of the guard have limits.

- Without a shared store a key may be granted again within the TTL. `OneSubmissionPerTtlLocally` says that the
  earlier submission was then rejected by the node and its record evicted from a full cache, which the world
  records as it happens (`DisplacedOnlyByOverflow`); `GrantedAgainExactlyWhenForgotten` says when an arriving
  request is granted so, in both directions; `NeverFullKeepsSpacing` that a cache which never fills makes no
  exception; and `SubmittedTwiceWithinTtl` is a run, of 4098 rejected submissions, in which it happens.
- Replies to one key agree unless the key was granted twice in the time they can report on (`RepliesAgree`). That
  time is two TTLs, one budget and one write delay, less two nanoseconds (`RepliesAreOutcomes`), and it is used up
  in some run, for any delay (`OldestReplyExists`). Two grants in it are sufficient for disagreement in some run
  (`StaleReplyExists`), not in every one.
- Over a shared store a record left unsettled, because its outcome was not valid or because the store reported an error
  on writing an outcome that is not a rejection, stays pinned until it expires. Nothing else stays pinned once its
  request is over (`PinnedOnlyWhileInFlight`), so only such records and requests in flight can make an instance refuse
  a new key (`RefusedOnlyWhenBusy`).
- A claim that took effect although it reported an error keeps its key pending for a whole TTL with nobody to submit
  it (`ClaimIsStranded`, `StrandedIsPending`). Whatever the store holds, the key is free once nothing has been written
  under it for a TTL (`KeyIsFreeAfterTtl`).

## The codecs

`Digits.dfy` holds positional notation. `Rlp.dfy` defines the encoding of Appendix B of the Ethereum Yellow
Paper on trees, proves it self-delimiting, and proves the gateway's recursive reader equal to its inverse
within the depth and item budgets; `BroadcastEnvelope.dfy` builds admission on it, and `EnvelopeShapes.dfy` says for each
transaction type, field by field, what is admitted. `Base58.dfy` and
`TronAddress.dfy` show that three independent TRON validators agree, which rests on two inequalities between
powers of 58 and 256. `NativeCodec.dfy` compares the Kotlin reader, in wrapping 32-bit arithmetic, with the
Swift one. They differ: only iOS accepts a length with a leading zero byte. The comment on both decoders says that
they take the exact envelope the wallet emits; the model follows the code, proves that a padded length of the
list or of an item read from it is the only difference, and gives an input that only iOS decodes. `SolanaAmount.dfy` is the decimal text of a token amount.

## Resilience

`RateLimiter.dfy`, `ProviderCircuit.dfy`, `TtlCache.dfy` and `UpstreamPool.dfy` (with `UpstreamEndpoint.dfy`,
`Percentiles.dfy` and `FailureRuns.dfy`) each tie the mutable object to a simpler account of its whole history: a
limiter that forgets nothing, the last outcomes reported, the values that were Set, the calls that were made.
`Basics.dfy` holds the two types that most files share.

## Model

| member | source | states |
|---|---|---|
| `BroadcastTheorems.OneSubmissionPerTtl` | backend/gateway/internal/handlers/broadcast_guard.go:130-229 | over a shared store, in every run, however late writes take effect, two owners of one key are at least the TTL apart, on whatever instances, and no owner makes more than one call to an endpoint |
| `BroadcastTheorems.OneSubmissionPerTtlLocally` | backend/gateway/internal/handlers/broadcast_guard.go:142-258 | without a shared store the same holds within one instance, unless the earlier submission was rejected and its record evicted from a full cache |
| `BroadcastTheorems.DisplacedOnlyByOverflow` | backend/gateway/internal/handlers/broadcast_guard.go:157-159 | a record enters the history of evictions only when a request finds all 4096 slots taken, and then it was evictable and is gone |
| `BroadcastTheorems.NeverFullKeepsSpacing` | backend/gateway/internal/handlers/broadcast_guard.go:157-159 | an instance whose cache is never full keeps the TTL spacing without exception |
| `BroadcastTheorems.ArrivalReservesExactlyWhen` | backend/gateway/internal/handlers/broadcast_guard.go:142-180 | an arriving request gets a slot exactly when the instance holds no live record of its key and not all slots are pinned |
| `BroadcastTheorems.ArrivalIsGrantedExactlyWhen` | backend/gateway/internal/handlers/broadcast_guard.go:142-180 | without a shared store an arriving request owns its key exactly when the instance holds no live record of it and not all slots are pinned |
| `BroadcastTheorems.GrantedAgainExactlyWhenForgotten` | backend/gateway/internal/handlers/broadcast_guard.go:142-180 | a key granted less than a TTL ago is granted again exactly when that submission was rejected and evicted, no later one is remembered and not all slots are pinned |
| `BroadcastOverflow.SubmittedTwiceWithinTtl` | backend/gateway/internal/handlers/broadcast_guard.go:157-180 | this happens: a run of one instance without a shared store in which one key is granted and submitted twice at one instant |
| `BroadcastTheorems.RejectionIsForgotten` | backend/gateway/internal/handlers/broadcast_guard.go:157-159 | the eviction: a rejection at the front of a full cache goes when another key arrives, however young it is, and its key then gets a slot exactly if not all are pinned |
| `BroadcastTheorems.RepliesAreOutcomes` | backend/gateway/internal/handlers/broadcast_guard.go:142-169 | every terminal record ever replayed, by any instance on any path, is the outcome of a granted owner of that key, granted at most two TTLs, one budget and one write delay, less two nanoseconds, before |
| `BroadcastTheorems.RepliesAgree` | backend/gateway/internal/handlers/broadcast_guard.go:199-225 | two terminal replies to a key are equal unless the key was granted twice in the time they can report on |
| `BroadcastTheorems.RepliesDifferAcrossGrants` | backend/gateway/internal/handlers/broadcast_guard.go:199-225 | terminal replies to a key that differ report two submissions of that key at least a TTL apart |
| `BroadcastStaleness.StaleReplyExists` | backend/gateway/internal/handlers/broadcast_guard.go:204-219 | such replies do occur: for any key and any two outcomes there is a run in which two instances answer with one each at the same instant |
| `BroadcastStaleness.OldestReplyExists` | backend/gateway/internal/handlers/broadcast_guard.go:142-225 | the bound on the age of a reply is reached: for any write delay there is a run whose only grant is replayed exactly that late |
| `BroadcastAvailability.ClaimIsGrantedExactlyWhen` | backend/gateway/internal/handlers/broadcast_guard.go:189-229 | a claim makes its request the owner exactly when the store answers and holds no live record of the key |
| `BroadcastAvailability.ClaimIsStranded` | backend/gateway/internal/handlers/broadcast_guard.go:190-197 | a claim applied despite its error leaves the key pending for a TTL with no owner and no request, in a reachable world |
| `BroadcastAvailability.StrandedIsPending` | backend/gateway/internal/handlers/broadcast_guard.go:199-225 | a nanosecond before the TTL is over a request for that key is still answered with pending |
| `BroadcastAvailability.StrandedIsSubmittedAfterTtl` | backend/gateway/internal/handlers/broadcast_guard.go:189-229 | at the end of the TTL it is submitted |
| `BroadcastAvailability.KeyIsFreeAfterTtl` | backend/gateway/internal/handlers/broadcast_guard.go:189-198 | in every run a key is free in the store once nothing was written under it for a TTL |
| `BroadcastTheorems.ReservationIsOwn` | backend/gateway/internal/handlers/broadcast_guard.go:174-225 | from its reservation to its last step a request finds its own node, unexpired and unmarked, under its key, and no other request holds that key there |
| `BroadcastTheorems.RecordsLeaveOnly` | backend/gateway/internal/handlers/broadcast_guard.go:27-29 | a record leaves an instance only by expiry, displaced when final and either a rejection or known to the store, released by a request that was never granted, or with a crash |
| `BroadcastSafety.NextKeepsInv` | backend/gateway/internal/handlers/broadcast.go:54-119 | every step of every interleaving, late writes and crashes included, keeps the invariant of `BroadcastProtocol.Inv` |
| `BroadcastSettling.PersistedIsEvictable` | backend/gateway/internal/handlers/broadcast_guard.go:276-280 | the last step of an owner, in any reachable world, marks its record and puts its key at the end of the eviction list |
| `BroadcastSettling.PinnedOnlyWhileInFlight` | backend/gateway/internal/handlers/broadcast_guard.go:204-280 | in every run over a shared store a record is evictable, or reserved by a request in flight, or was left unsettled |
| `BroadcastSettling.UnsettledOnlyBy` | backend/gateway/internal/handlers/broadcast_guard.go:239-275 | a record is left unsettled exactly by an outcome that is not a valid final record, or by one that is not a rejection and whose write reported an error |
| `BroadcastSettling.RefusedOnlyWhenBusy` | backend/gateway/internal/handlers/broadcast_guard.go:157-172 | so a shared instance refuses a key only when 4096 live records belong to requests in flight or were left unsettled |
| `BroadcastSettling.ToldExactlyWhatIsOnRecord` | backend/gateway/internal/handlers/broadcast_guard.go:142-225 | a request that finds a live record in its instance or in the store is told that record, and nobody is told anything else |
| `BroadcastSettling.OutcomeIsReplayedLocally` | backend/gateway/internal/handlers/broadcast_guard.go:142-156 | without a shared store the outcome of a submission is what a later request for its key is told, until a TTL after the grant, unless it is forgotten |
| `GuardState.FullExactlyWhenPinned` | backend/gateway/internal/handlers/broadcast_guard.go:134-172 | a key finds no slot exactly when it holds none and all 4096 are unexpired and not evictable, although one sweep removes at most 64 |
| `GuardState.BeginCoherent` | backend/gateway/internal/handlers/broadcast_guard.go:134-180 | after any admission there are at most 4096 records and the list holds exactly the evictable keys, without repeats |
| `GuardState.BeginDropsOnly` | backend/gateway/internal/handlers/broadcast_guard.go:136-159 | admission drops nothing but expired or evictable records |
| `GuardState.BeginKeepsOnly` | backend/gateway/internal/handlers/broadcast_guard.go:142-180 | admission replays exactly a live record, and leaves nothing that was not there but its own reservation |
| `GuardState.ReplayIsLast` | backend/gateway/internal/handlers/broadcast_guard.go:142-149 | a replay puts its key at the end of the eviction list |
| `GuardState.ReplayProtects` | backend/gateway/internal/handlers/broadcast_guard.go:142-159 | so the next arrival does not evict it while another key can go |
| `GuardState.SweepIsBounded` | backend/gateway/internal/handlers/broadcast_guard.go:136-141 | one arrival sweeps at most 64 records, all expired, and fewer only if no other is |
| `GuardState.ValidRecordsAre` | backend/gateway/internal/handlers/broadcast_guard.go:356-371 | the valid records, written out: state, hash and error code of each |
| `GuardState.InstallCoherent` | backend/gateway/internal/handlers/broadcast_guard.go:204-225 | installing a peer's record keeps the slots coherent, final or pending |
| `GuardState.CompleteCoherent` | backend/gateway/internal/handlers/broadcast_guard.go:234-259 | so does completing a record |
| `BroadcastGuard.Guard.Begin` | backend/gateway/internal/handlers/broadcast_guard.go:134-180 | the critical section of `begin` computes the sweep, the replay, the eviction and the reservation of `GuardState`, and keeps map, heap and list linked |
| `BroadcastGuard.Guard.Sweep` | backend/gateway/internal/handlers/broadcast_guard.go:136-141 | the loop removes the earliest expired records, at most 64, and stops early only when none is left |
| `BroadcastGuard.Guard.AdmitSwept` | backend/gateway/internal/handlers/broadcast_guard.go:142-172 | replay, eviction or refusal, as `GuardState.Admit` |
| `BroadcastGuard.Guard.ReserveSlot` | backend/gateway/internal/handlers/broadcast_guard.go:174-180 | the pending record and its heap node are added together |
| `BroadcastGuard.Guard.RemoveLocal` | backend/gateway/internal/handlers/broadcast_guard.go:285-295 | exactly this key leaves the map, the list and the heap |
| `BroadcastGuard.Guard.MarkEvictable` | backend/gateway/internal/handlers/broadcast_guard.go:297-304 | the key is appended to the list once, if it has a record |
| `BroadcastGuard.Guard.InstallPeerRecord` | backend/gateway/internal/handlers/broadcast_guard.go:204-225 | a final record is kept and marked, a pending one drops the slot |
| `BroadcastGuard.Guard.CompleteLocally` | backend/gateway/internal/handlers/broadcast_guard.go:234-262 | a valid terminal record replaces the reservation; anything else changes nothing |
| `BroadcastGuard.Guard.MarkPersisted` | backend/gateway/internal/handlers/broadcast_guard.go:270-280 | the mark is set only if the record is still the one that was completed |
| `ExpiryHeap.Heap.Up` | backend/gateway/internal/handlers/broadcast_guard.go:38-44 | sifting up restores the heap order and keeps every stored index right |
| `ExpiryHeap.Heap.Down` | backend/gateway/internal/handlers/broadcast_guard.go:38-44 | sifting down restores the heap order if it moves, and otherwise leaves only the way up in doubt |
| `ExpiryHeap.Heap.Push` | backend/gateway/internal/handlers/broadcast_guard.go:45-49 | adds one node and keeps heap order and indices |
| `ExpiryHeap.Heap.RemoveAt` | backend/gateway/internal/handlers/broadcast_guard.go:285-295 | removes exactly the node at any index and keeps heap order and indices |
| `ExpiryHeap.FirstIsEarliest` | backend/gateway/internal/handlers/broadcast_guard.go:36-41 | the first node of an ordered heap has the earliest deadline |
| `Rlp.ReadItem` | backend/gateway/internal/handlers/broadcast_envelope.go:58-112 | success means that the bytes used are the encoding of the tree returned, within depth and budget, and that the budget fell by its item count; failure means that no tree within depth and budget starts these bytes |
| `Rlp.ReadChildren` | backend/gateway/internal/handlers/broadcast_envelope.go:95-107 | the same for the payload of a list and all its children |
| `Rlp.ReadHeader` | backend/gateway/internal/handlers/broadcast_envelope.go:68-94 | accepts exactly the canonical headers whose payload fits, under the source's overflow guard |
| `Rlp.EncodingReadsBack` | backend/gateway/internal/handlers/broadcast_envelope.go:58-112 | the encoding of any tree within depth and budget, with anything behind it, is parsed by nothing but that tree |
| `Rlp.SelfDelimiting` | backend/gateway/internal/handlers/broadcast_envelope.go:58-112 | two trees whose encodings start the same bytes are equal |
| `Rlp.KnownHeaders` | backend/gateway/internal/handlers/broadcast_envelope.go:68-94 | the headers at the lengths where their form changes: 55, 56 and 1024 |
| `Rlp.KnownStrings` | backend/gateway/internal/handlers/broadcast_envelope.go:68-94 | short strings of the Ethereum documentation, byte by byte |
| `Rlp.KnownList` | backend/gateway/internal/handlers/broadcast_envelope.go:95-107 | the list of two strings of the Ethereum documentation, byte by byte |
| `BroadcastEnvelope.ValidEVMBroadcastEnvelope` | backend/gateway/internal/handlers/broadcast_envelope.go:15-54 | admits exactly the bytes that are one whole encoded tree of a signed transaction shape |
| `EnvelopeShapes.LegacyExactly` | backend/gateway/internal/handlers/broadcast_envelope.go:19-54 | untyped bytes are admitted exactly as one whole list of six leading fields, v of 27, 28 or at least 35, and r and s between 1 and 2^256 - 1 |
| `EnvelopeShapes.TypedExactly` | backend/gateway/internal/handlers/broadcast_envelope.go:19-53 | types 1 and 2 exactly with eight and nine leading fields, a parity, and such r and s |
| `EnvelopeShapes.BlobExactly` | backend/gateway/internal/handlers/broadcast_envelope.go:32-53 | type 3 exactly as at least nine such fields, or as a list of them with three sidecar items |
| `EnvelopeShapes.OtherTypesExactly` | backend/gateway/internal/handlers/broadcast_envelope.go:19-53 | any other type but 0 exactly as at least nine such fields |
| `EnvelopeShapes.Eip1559IsAdmitted` | backend/gateway/internal/handlers/broadcast_envelope.go:15-54 | every signed EIP-1559 transaction within eight lists and 4096 items is admitted |
| `BroadcastEnvelope.AdmittedIsPrefixFree` | backend/gateway/internal/handlers/broadcast_envelope.go:15-54 | no admitted byte string is a strict prefix of another, whatever their types |
| `BroadcastEnvelope.AdmittedIsOneTransaction` | backend/gateway/internal/handlers/broadcast_envelope.go:15-54 | an admitted byte string is one transaction |
| `Base58.DecodeInvertsEncode` | backend/gateway/internal/handlers/validate.go:158-198 | decode(encode(p)) is p for every byte string, leading and lone zeros included |
| `Base58.EncodeInvertsDecode` | backend/gateway/internal/handlers/validate.go:158-198 | encode(decode(s)) is s for every string over the alphabet |
| `Base58.DecodeMeans` | backend/gateway/internal/handlers/validate.go:158-176 | what is decoded has the value of the string read in base 58, and as many leading zero bytes as the string has leading ones |
| `Base58.Base58Decode` | backend/gateway/internal/handlers/validate.go:158-176 | the loop accepts exactly the strings over the alphabet and computes the decoding |
| `Base58.Base58Encode` | backend/gateway/internal/handlers/validate.go:178-198 | repeated division, padding and reversal compute the encoding |
| `Base58.SolanaBase58DecodedLength` | backend/gateway/internal/upstream/solana_balance.go:42-59 | always the length of what the decoder returns, and refuses the same strings |
| `TronAddress.TronShape` | backend/gateway/internal/handlers/validate.go:90-98 | 25 bytes led by 0x41 are always written as 34 characters led by 'T' |
| `TronAddress.ValidatorsAgree` | backend/gateway/internal/handlers/validate.go:90-98 | the request validator accepts exactly the strings with a valid payload, prefix and checksum, and those are never in hex form |
| `TronAddress.VerifiedExactly` | backend/gateway/internal/handlers/validate.go:203-220 | a verified address decodes to 0x41, 20 bytes, and the first four bytes of their double SHA-256 |
| `TronAddress.HexFormExactly` | backend/gateway/internal/upstream/tron_history.go:475-480 | the hex form is 41 and forty more hex digits, in either case |
| `TronAddress.TronBase58AddressHex` | backend/gateway/internal/upstream/tron.go:353-384 | the same strings, and returns the payload in hex |
| `TronAddress.ValidTronAddress` | backend/gateway/internal/upstream/tron_history.go:475-487 | the same strings or the hex form, although it checks neither length nor first letter |
| `TronAddress.DecodeTronBase58` | backend/gateway/internal/upstream/tron_history.go:489-510 | the third decoder is Base58 decoding of non-empty strings |
| `TronAddress.NormalizeInvertsDisplay` | backend/gateway/internal/handlers/validate.go:203-239 | a canonical hex address shown to the user and normalized again is unchanged, and what was shown is valid |
| `TronAddress.DisplayInvertsNormalize` | backend/gateway/internal/handlers/validate.go:203-239 | a valid Base58 address normalized and shown again is unchanged |
| `TronAddress.DisplayIgnoresSpaceAndCase` | backend/gateway/internal/handlers/validate.go:224-239 | white space around a hex address and the case of its letters do not change what is shown |
| `TronAddress.NormalizingIsIdempotent` | backend/gateway/internal/handlers/validate.go:203-220 | the normalizer leaves its own results alone and writes the hex form in lower case |
| `TronAddress.NormalizesChecked` | backend/gateway/internal/handlers/validate.go:209-218 | behind a T any 25 bytes with the right checksum become hex, whatever the first byte is |
| `TronAddress.OnlyCheckedBecomesHex` | backend/gateway/internal/handlers/validate.go:209-220 | nothing else becomes more than lower case |
| `NativeCodec.KotlinReadInBounds` | packages/core_crypto/android/src/walletcore/kotlin/com/ktwallet/core_crypto/WalletCoreBridge.kt:295-337 | for every array and start, under 32-bit wrap-around, an item read is a slice of the source that ends behind its start |
| `NativeCodec.SwiftReadInBounds` | packages/core_crypto/ios/core_crypto/Sources/core_crypto/WalletCoreBridge.swift:263-303 | the same for the Swift reader |
| `NativeCodec.PlatformsDifferOnPaddingOnly` | packages/core_crypto/ios/core_crypto/Sources/core_crypto/WalletCoreBridge.swift:263-303 | Android reads an item exactly when iOS does and its length has no leading zero byte, and then they read the same |
| `NativeCodec.DecodersDifferOnPaddingOnly` | packages/core_crypto/ios/core_crypto/Sources/core_crypto/WalletCoreBridge.swift:235-261 | Android decodes an input exactly when iOS does and neither the list nor any item read from it has a padded length, and then to the same fields |
| `NativeCodec.OnlySwiftDecodesPadded` | packages/core_crypto/ios/core_crypto/Sources/core_crypto/WalletCoreBridge.swift:287-294 | any short transaction with its list length padded is decoded by iOS to its fields and refused by Android |
| `NativeCodec.DecodersDiffer` | packages/core_crypto/ios/core_crypto/Sources/core_crypto/WalletCoreBridge.swift:287-294 | such an input exists |
| `NativeCodec.ReadLengthKotlin` | packages/core_crypto/android/src/walletcore/kotlin/com/ktwallet/core_crypto/WalletCoreBridge.kt:330-337 | the shift loop computes the wrapped big-endian value, and fails where the source throws |
| `NativeCodec.RlpLengthSwift` | packages/core_crypto/ios/core_crypto/Sources/core_crypto/WalletCoreBridge.swift:287-294 | the loop computes the big-endian value |
| `NativeCodec.DecodeEip1559` | packages/core_crypto/android/src/walletcore/kotlin/com/ktwallet/core_crypto/WalletCoreBridge.kt:261-293 | the offset loop terminates and computes the decoding by `NativeCodec.Decode`, on both platforms |
| `NativeCodec.DecodesExactly` | packages/core_crypto/android/src/walletcore/kotlin/com/ktwallet/core_crypto/WalletCoreBridge.kt:261-293 | an encoded tree is decoded exactly when it is nine fields, eight strings and the empty list, with a recipient of 20 bytes, on both platforms |
| `NativeCodec.DecodedIsOneList` | packages/core_crypto/android/src/walletcore/kotlin/com/ktwallet/core_crypto/WalletCoreBridge.kt:261-266 | whatever is decoded is the type byte and one framed list that ends with the input |
| `NativeCodec.ReadIsFramed` | packages/core_crypto/android/src/walletcore/kotlin/com/ktwallet/core_crypto/WalletCoreBridge.kt:295-337 | what is read is framed: a byte below 0x80, a one-byte header, or a length of one to four bytes, not led by zero on Android |
| `NativeCodec.FramedIsRead` | packages/core_crypto/android/src/walletcore/kotlin/com/ktwallet/core_crypto/WalletCoreBridge.kt:295-337 | and whatever is framed so is read |
| `NativeCodec.ItemsTile` | packages/core_crypto/android/src/walletcore/kotlin/com/ktwallet/core_crypto/WalletCoreBridge.kt:268-272 | the items of a payload tile it without gap or overlap |
| `NativeCodec.DecodesUnsignedTransaction` | packages/core_crypto/android/src/walletcore/kotlin/com/ktwallet/core_crypto/WalletCoreBridge.kt:261-293 | both platforms return the original fields of any encoded unsigned EIP-1559 transaction with a 20-byte recipient and an empty access list |
| `NativeCodec.TronSignedTransaction` | packages/core_crypto/android/src/walletcore/kotlin/com/ktwallet/core_crypto/WalletCoreBridge.kt:201-210 | writes the two length-delimited fields |
| `NativeCodec.ProtobufVarintKotlin` | packages/core_crypto/android/src/walletcore/kotlin/com/ktwallet/core_crypto/WalletCoreBridge.kt:213-222 | the loop writes the base-128 varint |
| `NativeCodec.ProtobufVarintSwift` | packages/core_crypto/ios/core_crypto/Sources/core_crypto/WalletCoreBridge.swift:200-209 | so does the Swift loop |
| `NativeCodec.SignedTransactionReadsBack` | packages/core_crypto/ios/core_crypto/Sources/core_crypto/WalletCoreBridge.swift:189-197 | a protobuf reader gets back exactly both parts, whatever bytes they hold |
| `NativeCodec.VarintReadsBack` | packages/core_crypto/ios/core_crypto/Sources/core_crypto/WalletCoreBridge.swift:200-209 | a varint with anything behind it parses back to its value |
| `NativeCodec.VarintIsMinimal` | packages/core_crypto/android/src/walletcore/kotlin/com/ktwallet/core_crypto/WalletCoreBridge.kt:213-222 | no varint ends in a redundant zero group |
| `SolanaAmount.CanonicalPrintsParts` | backend/gateway/internal/upstream/solana_balance.go:303-318 | the text is the whole part and the fraction, without a point if there is no fraction, also on the early return without decimals |
| `SolanaAmount.CanonicalDenotes` | backend/gateway/internal/upstream/solana_balance.go:303-318 | those parts, scaled by ten to the decimals, are exactly the amount, and no zero in them is redundant |
| `SolanaAmount.CanonicalReadsBack` | backend/gateway/internal/upstream/solana_balance.go:303-318 | the digits of the text, scaled by the decimals its places leave, are the amount |
| `SolanaAmount.CanonicalLooksPlain` | backend/gateway/internal/upstream/solana_balance.go:303-318 | the text begins with a digit, with 0 only before the point or alone, and no fraction ends in 0 |
| `SolanaAmount.CanonicalIsTheOnlyPlainText` | backend/gateway/internal/upstream/solana_balance.go:295-300 | no other numeral without redundant zeros denotes the amount, so comparing texts compares numbers |
| `SolanaAmount.CanonicalIsInjective` | backend/gateway/internal/upstream/solana_balance.go:303-318 | for fixed decimals different amounts have different texts |
| `RateLimiter.Limiter.AllowRequest` | backend/gateway/internal/ratelimit/ratelimit.go:67-104 | one request computes `RateLimiter.Allow` on the buckets |
| `RateLimiter.ChargedExactly` | backend/gateway/internal/ratelimit/ratelimit.go:72-85 | in every run a request is charged to its own key exactly when that has a bucket, or a slot is free, or one is once the fully refilled buckets are gone; otherwise to overflow |
| `RateLimiter.FewClientsAreIndependent` | backend/gateway/internal/ratelimit/ratelimit.go:67-104 | with fewer clients than buckets each request is admitted exactly when a bucket of that client alone, never dropped, is worth a token |
| `RateLimiter.NeverMoreThanMaxBuckets` | backend/gateway/internal/ratelimit/ratelimit.go:67-85 | in every run the map never outgrows maxBuckets, the overflow bucket included |
| `RateLimiter.ReclaimingIsUnobservable` | backend/gateway/internal/ratelimit/ratelimit.go:72-80 | every decision is the one of a limiter that never drops a bucket |
| `RateLimiter.WindowBound` | backend/gateway/internal/ratelimit/ratelimit.go:86-104 | in any window of any run every bucket admits at most the burst plus rate times the window |
| `RateLimiter.AllowChargesOne` | backend/gateway/internal/ratelimit/ratelimit.go:67-104 | a request takes at most one token, from one bucket, and changes the worth of no other |
| `ProviderCircuit.Breaker.Admit` | backend/gateway/internal/handlers/provider_circuit.go:59-72 | admission computes `ProviderCircuit.Allow` on the fields |
| `ProviderCircuit.Breaker.Record` | backend/gateway/internal/handlers/provider_circuit.go:77-117 | recording computes `ProviderCircuit.Finish` on the fields |
| `ProviderCircuit.AdmitsExactlyWhen` | backend/gateway/internal/handlers/provider_circuit.go:59-72 | a request gets a permit exactly when the circuit is closed, or the open window is over and no permit that counts is in use; every refusal is counted |
| `ProviderCircuit.DeadlineMoves` | backend/gateway/internal/handlers/provider_circuit.go:95-117 | a failed probe sets the deadline thirty seconds ahead, a successful one removes it, and nothing else touches it |
| `ProviderCircuit.NoPermitWhileShut` | backend/gateway/internal/handlers/provider_circuit.go:63-117 | after a counted failure that leaves the circuit open no permit is issued for thirty seconds, in any run |
| `ProviderCircuit.GenerationFollowsDeadline` | backend/gateway/internal/handlers/provider_circuit.go:95-117 | a new generation begins exactly when the deadline moves, and voids every permit issued before |
| `ProviderCircuit.OpenAdmitsOneProbe` | backend/gateway/internal/handlers/provider_circuit.go:59-72 | in every run, while open, the permits of the current generation are at most one: a probe issued after the open window, in use exactly while the flag is set |
| `ProviderCircuit.ClosesExactlyByProbe` | backend/gateway/internal/handlers/provider_circuit.go:95-103 | an open circuit closes exactly when that probe succeeds |
| `ProviderCircuit.OpensExactlyAfterThreeFailures` | backend/gateway/internal/handlers/provider_circuit.go:105-117 | a closed circuit opens exactly when the counted outcomes of its generation come to end in three failures |
| `ProviderCircuit.StaleAndCancelledDoNotCount` | backend/gateway/internal/handlers/provider_circuit.go:85-94 | permits of an earlier generation change nothing, and a cancelled call nothing but its own probe flag |
| `FailureRuns.ThreeFailuresAtEnd` | backend/gateway/internal/upstream/pool.go:493-504 | three failures in a row are counted exactly when the last three outcomes are failures |
| `TtlCache.Cache.Get` | backend/gateway/internal/cache/cache.go:119-165 | local hit, shared hit with a copy, or miss, and the local map after each |
| `TtlCache.Cache.Set` | backend/gateway/internal/cache/cache.go:174-201 | the local entry, and the shared record whose deadline is rounded down to a millisecond |
| `TtlCache.Cache.SetLocal` | backend/gateway/internal/cache/cache.go:203-216 | beyond 4096 entries the loop drops exactly the expired ones before the write |
| `TtlCache.HitsAreFresh` | backend/gateway/internal/cache/cache.go:119-165 | in every run, every hit on any instance returns a value that some instance Set under that key at most one ttl before |
| `TtlCache.CopyingNeverExtendsLife` | backend/gateway/internal/cache/cache.go:152-163 | every entry held anywhere expires no later than its Set allowed, and less than a millisecond earlier |
| `TtlCache.DroppingIsUnobservable` | backend/gateway/internal/cache/cache.go:203-216 | the sweep and the deletion on lookup change no answer of any sequence of calls |
| `TtlCache.WhatIsKept` | backend/gateway/internal/cache/cache.go:203-216 | a write above 4096 entries keeps exactly the unexpired ones and its own, a lookup drops exactly its own expired one |
| `TtlCache.WhenTheyAnswer` | backend/gateway/internal/cache/cache.go:119-165 | a local entry answers up to and at its deadline, a shared record only before the whole millisecond of its own |
| `TtlCache.LastWriteDecides` | backend/gateway/internal/cache/cache.go:119-216 | in every run the last Set, copy or restart decides what an instance answers for a key; other keys, other instances, the store and sweeps do not |
| `TtlCache.ReadsItsOwnWrite` | backend/gateway/internal/cache/cache.go:152-163 | after its Set an instance returns that value for the whole ttl exactly unless a record it fetched for the key was copied last and answers otherwise |
| `TtlCache.OwnWriteIsOverwritten` | backend/gateway/internal/cache/cache.go:152-163 | this happens: an instance answers an older value after its own newer Set |
| `UpstreamPool.Pool.constructor` | backend/gateway/internal/upstream/pool.go:178-208 | blank addresses are dropped in order, and the rotated prefix is clamped to what is left |
| `UpstreamPool.BlanksAreDropped` | backend/gateway/internal/upstream/pool.go:186-191 | an address is kept as often as it is given, unless it is blank |
| `UpstreamPool.OthersKeepOrder` | backend/gateway/internal/upstream/pool.go:186-191 | and those kept stay in order |
| `UpstreamPool.Pool.EndpointsForCall` | backend/gateway/internal/upstream/pool.go:365-379 | the order of a call, and where the next one starts |
| `UpstreamPool.OrderIsPermutation` | backend/gateway/internal/upstream/pool.go:365-379 | every endpoint is visited exactly once and the failover targets keep their place |
| `UpstreamPool.EachPrimaryLeadsOnce` | backend/gateway/internal/upstream/pool.go:365-379 | among the orders of as many consecutive calls as there are primaries, each primary comes first in exactly one |
| `UpstreamPool.Pool.CallOnce` | backend/gateway/internal/upstream/pool.go:285-324 | a write asks the first endpoint whose circuit is closed and no other, whatever comes of it, and records that one call |
| `UpstreamPool.WriteAsksFirstClosed` | backend/gateway/internal/upstream/pool.go:285-324 | one call is recorded at one endpoint behind open circuits only, or none because all circuits were open |
| `UpstreamPool.WriteAddsAtMostOneCall` | backend/gateway/internal/upstream/pool.go:285-324 | all endpoints together record one more call after a write, or none if it asked nobody |
| `UpstreamPool.Pool.CallWithFailover` | backend/gateway/internal/upstream/pool.go:222-276 | a read asks the endpoints with closed circuits in order until one answers or its caller is gone, and records each call |
| `UpstreamPool.ReadGoesOnExactly` | backend/gateway/internal/upstream/pool.go:236-276 | a read goes on after a routing refusal and after a failed exchange whose caller still waits, and after nothing else; only a result and an error of the node count as successes |
| `UpstreamPool.ReadFailsOnlyAfterAll` | backend/gateway/internal/upstream/pool.go:222-276 | a read fails only after every endpoint was open or asked in vain, each once, unless its caller gave up |
| `UpstreamPool.EligibleExactly` | backend/gateway/internal/upstream/pool.go:236-238 | the endpoints a call may ask are, without repeats, exactly those found closed at their turn |
| `UpstreamEndpoint.OpenExactlyAfterThreeFailures` | backend/gateway/internal/upstream/pool.go:487-514 | a circuit is open exactly within thirty seconds after a call that made the last three outcomes failures |
| `UpstreamEndpoint.Endpoint.RecordFailure` | backend/gateway/internal/upstream/pool.go:493-504 | the fields go on summarising the whole history with this failure appended |
| `UpstreamEndpoint.Endpoint.RecordSuccess` | backend/gateway/internal/upstream/pool.go:506-514 | the same for a success |
| `UpstreamEndpoint.Endpoint.Latencies` | backend/gateway/internal/upstream/pool.go:606-627 | exactly the last 256 latencies of the history, oldest first, negative ones as zero |
| `Percentiles.LatencyPercentiles` | backend/gateway/internal/upstream/pool.go:629-641 | the median and the 95th percentile by `Percentiles.IsPercentile`, in order, and zeros without samples |
| `Percentiles.NearestRankIsPercentile` | backend/gateway/internal/upstream/pool.go:635-639 | the sample at the nearest rank has at least p percent of the samples at or below it and fewer than that below |
| `Percentiles.PercentileIsUnique` | backend/gateway/internal/upstream/pool.go:629-641 | no other value has that property |

## Left out

- HTTP, timeouts, redirects, provider clients and the Redis driver: one upstream call is an arbitrary outcome,
  the store an atomic map with a TTL whose operations may report an error either way.
- JSON: records are taken to survive encoding and decoding; an undecodable shared record is a miss or an error, as
  in the source. Canonicalisation of TRON payloads and the classification of upstream errors
  (`broadcastError`) are not modelled: an attempt may end in any record.
- SHA-256 is a parameter of the TRON checksum, and keys are used as they are where the source hashes them, so
  collisions are not part of the model.
- Metrics, logs, health snapshots and the memory of `Len` and `Stats`: counters without effect on behaviour.
- `container/list` elements are identified with the keys they hold, which the coherence invariant proves unique,
  so list pointers are not modelled.
- BroadcastTheorems.RepliesAgree: promises nothing about replies that can report on two grants of the key, because
  the code does not keep more (`StaleReplyExists`).
- BroadcastTheorems.OneSubmissionPerTtl: the circuits of the pool are not followed from one write to the next; each
  write meets whatever histories its endpoints have by then.
- Rlp.ReadItem: slices are at most 2^63 - 1 bytes long, as on the platform; the list node keeps its children but not
  the payload slice, which the source does not use again.
- TronAddress.TronAddrDisplay: `strings.TrimSpace` and `strings.ToLower` are modelled on ASCII; Go strings are
  sequences of characters.
- RateLimiter.WindowBound: tokens and seconds are real numbers, so floating-point rounding is not modelled.
- ProviderCircuit.OpenAdmitsOneProbe: the generation is a natural number, without 64-bit wrap-around.
- NativeCodec.RlpLengthSwift: Swift's 64-bit integers are unbounded here; a length of at most four bytes stays far
  below their limit.
- NativeCodec.TronSignedTransaction: stated once, with the Kotlin varint; the Swift function differs only in its
  varint, which is proved to write the same bytes.
- TtlCache.HitsAreFresh: says that a hit is recent, not that it is the latest value: `TtlCache.ReadsItsOwnWrite` has
  the condition and `TtlCache.OwnWriteIsOverwritten` the run.
- TtlCache.Cache.SetLocal: the sweep reads the clock once, where the source reads it for each entry.
- UpstreamPool.Pool.CallOnce: other calls that change the circuits between two visits of the same call are not
  interleaved; the bound of one attempt does not depend on them.
- UpstreamEndpoint.Endpoint.RecordFailure: counts failures without their kinds.
- Percentiles.LatencyPercentiles: the library's sort is an insertion sort here; the percentiles depend only on how
  often each sample occurs.
- The simpler Redis circuit, the auth lockout ladder, fee tiers, token catalogs, risk and approval providers, price
  medians, history mapping and the user interfaces: they would add easier members of kinds already present.
