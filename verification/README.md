# Stacks core: verified models

Dafny models of the parts of the Stacks blockchain node where a small mistake would be a consensus failure,
and proofs of what those parts promise. `dafny verify dfyconfig.toml` checks everything.

**Transactions** (`Wire`, `Codecs`, `NameRules`, `Values`, `TupleOrder`, `SpendingConditions`, `Transactions`,
`TransactionLaws`, `WireLayout`).
The wire format of SIP-005, sections "Transaction Encoding" and "Clarity Value Representation". A stream is the
sequence of bytes still to be read; a format couples an encoder, a decoder and the set of values it carries, and is
*lawful* when decoding undoes encoding in front of any bytes and every accepted input normalises to a carried value
that re-encodes to no more bytes than were read. Formats are built from smaller ones, and each way of building is
proved to keep the law, so the law of a whole transaction follows. `WireLayout` writes the same bytes out field by
field and proves the two agree. The type checks on composite Clarity values, UTF-8, curve points, recoverable
signatures, the canonical form of VRF proofs and the in-memory sizes of list items are parameters.

**Signing** (`Signing`, `SigningLaws`, `SigningSoundness`, `SighashLaws`). The rolling-hash protocol of SIP-005, sections "Transaction Authorization" and
"Transaction Signing and Verifying", for single-signature, multi-signature, order-independent and sponsored
authorization. Hashing, key recovery and address hashing are parameters; the laws assumed are that a signature
recovers to the public key of the secret that made it and, in `SighashLaws`, that a transaction identifier is the hash
of the encoding.

**MARF pointer lists** (`Bits`, `TriePtrs`, `PtrLists`, `PtrReader`, `RootReservation`). One child pointer and its two
encodings; the uncompressed, dense and sparse forms of a node's list; the reader that over-reads and seeks back, over
a file whose reads may be short, interrupted or fail; the space reserved for a root whose pointers widen later.

**PoX locking** (`PoxBalances`, `PoxLocking`, `PoxRuns`, `PoxFrames`). Balances with the locks of five contract
versions, the calls that change them, runs of calls, burn blocks, epochs and transactions, and a transaction as a tree
of calls in frames that commit or roll back, with the node's handler acting on accounts, asset map and events in the
caller's frame. What a contract answers is an input; a PoX function may itself call contracts.

**Signer threads** (`SignerLoop`). The event receiver, any number of run loops and the owner as threads taking one
step at a time, with a stop flag, a request queue, one channel per run loop, timeouts, failing reads and lost wake-ups.

**Smaller cores.** `BitVec` (packed booleans and their iterator), `DepthTraverse` (a walk with an explicit stack),
`BlobStore` (the trie blob file, its rows, its caches, crashes, and the chunked header read).

Where the code does not meet a property, the model keeps the code, shows an input where it fails, and proves exactly
when it holds:

- A transaction within the length bound need not be readable: lists are also limited by the memory their items would
  take (`TransactionLaws.LongListsAreRefused`; `TransactionLaws.RoundTrip` is the exact condition).
- A PoX-5 call can report an error after the lock has been stored, when the amounts noted in its transaction overflow
  (`PoxRuns.FailureCanChangeAccounts`; `PoxRuns.FailureKeepsAccounts` is the exact condition). That takes at least
  2^128 uSTX over the locks of one transaction (`PoxRuns.NotedAtMost`, `PoxFrames.OverflowNeedsManyCalls`). The error
  ends the transaction and the frames undo the lock (`PoxFrames.ErringCallIsUndone`).
- Appending a blob may overwrite a recorded one when an empty row shares the greatest offset
  (`BlobStore.TieIsReached`, `BlobStore.TiedCanOverwrite`; `BlobStore.SafeIffNotTied` is the exact condition).
  Unconfirmed tries have such rows. Only the first blob is at risk (`BlobStore.TiedNeedsOneBlob`).
- The caches of a trie file are never cleared, so a cached row that is dropped stays in them, also when its identifier
  is given to another trie (`BlobStore.StaleHash`; `BlobStore.DropKeepsIff` is the exact condition).
- Two decoded bit vectors can list the same booleans and be unequal (`BitVec.DecodedPaddingMatters`;
  `BitVec.CanonicalIff` is the exact condition).
- A sparse pointer list resets empty slots that are not default (`PtrLists.SparseForgetsCharacter`;
  `PtrLists.ListRoundTrip` is the exact condition).
- A stopped receiver whose wake-up request is lost stays blocked until a read fails, the node posts a request, or
  another wake-up is delivered (`SignerLoop.LostWakeUpBlocks`, `SignerLoop.StaysBlocked`;
  `SignerLoop.BlockedUntilWoken` is the exact condition).

## Model

| member | source | states |
|---|---|---|
| `Wire.BigEndianAt` | stacks-common/src/codec/macros.rs:2-20 | each byte of a number, most significant first |
| `Codecs.RoundTripIff` | stacks-common/src/codec/mod.rs:153-240 | a lawful format returns a value from its encoding plus any suffix if and only if it carries the value |
| `Codecs.PrefixFree` | stacks-common/src/codec/mod.rs:224-240 | in a lawful format no encoding is a prefix of another value's, so encoding is injective |
| `Codecs.Normal` | stacks-common/src/codec/mod.rs:153-190 | an accepted input decodes to a value that re-encodes to no more bytes and decodes to itself; what is left is a suffix |
| `Codecs.ReadItems` | stacks-common/src/codec/mod.rs:183-189 | the item loop reads exactly the items the recursive definition reads and stops at the first failure |
| `Codecs.VecLawful` | stacks-common/src/codec/mod.rs:153-190 | counted lists are lawful, with the count checked before any item is read |
| `Codecs.StringBytes` | stacks-common/src/codec/mod.rs:153-190 | strings are preceded by their length in four bytes or in one |
| `Codecs.BoundedLawful` | stacks-common/src/util/retry.rs:83-114 | a format read through a bounded reader is lawful on the values that fit the bound |
| `Codecs.BoundedReads` | stacks-common/src/util/retry.rs:97-114 | a bounded reader consumes at most its bound |
| `Codecs.PeekedLawful` | stacks-codec/src/transaction.rs:1321-1349 | choosing a format by a byte that is looked at and read again is lawful when encodings lead with their own byte |
| `Codecs.TaggedLawful` | stacks-codec/src/transaction.rs:1834-1853 | choosing a format by a tag byte is lawful when each format carries only values with its tag |
| `Values.NamesLawful` | clarity-types/src/representations.rs:80-162 | Clarity and contract names round-trip exactly when they match the naming rules and length limits |
| `NameRules.ClarityNameIff` | clarity-types/src/representations.rs:51-56 | the check of a Clarity name accepts exactly the words of its regular expression with at most 128 bytes |
| `NameRules.ContractNameIff` | clarity-types/src/representations.rs:36-61 | the check of a contract name accepts exactly the words of its regular expression, and `__transient` |
| `Values.AddressLawful` | stacks-common/src/types/chainstate.rs:376-396 | addresses round-trip exactly when the version is below 32 |
| `Values.PrincipalLawful` | clarity-types/src/types/serialization.rs:277-324 | principals round-trip exactly when address and contract name are valid |
| `Values.FromDataSorts` | clarity-types/src/types/mod.rs:1894-1910 | the tuple built from entries in any order is sorted, has the same entries and the same encoded length |
| `Values.FromDataIff` | clarity-types/src/types/mod.rs:1894-1910 | a tuple is built exactly when no name occurs twice |
| `Values.FromDataKeepsSorted` | clarity-types/src/types/mod.rs:1894-1910 | sorted entries are kept as they are |
| `Values.TupleBodyLawful` | clarity-types/src/types/serialization.rs:620-1119 | the tuple format is lawful although it reorders what it reads |
| `TupleOrder.BuiltIsSorted` | clarity-types/src/types/mod.rs:1894-1910 | building a tuple from the entries of a sorted one gives the sorted one, whatever their order |
| `TupleOrder.ReorderedDecodes` | clarity-types/src/types/serialization.rs:1069-1072 | a value written with the entries of its tuples in any order, at any depth, decodes to the value with them sorted, in front of any bytes |
| `TupleOrder.ReorderedValueDecodes` | clarity-types/src/types/serialization.rs:1069-1072 | the same of a value in a message, within its 2 MiB |
| `TupleOrder.RepeatedNameRefused` | clarity-types/src/types/mod.rs:1894-1910 | a tuple that names an entry twice is refused |
| `Values.ValueAtLawful` | clarity-types/src/types/serialization.rs:620-1119 | the value format is lawful at every depth up to the depth limit |
| `Values.ValueLawful` | clarity-types/src/types/serialization.rs:1518-1532 | Clarity values round-trip exactly when well formed, and every accepted byte string normalises |
| `Values.Limits` | clarity-types/src/types/serialization.rs:628-645 | values nest sixteen deep, and data and lists have at most a mebibyte of bytes or items |
| `SpendingConditions.ScanFields` | stacks-codec/src/transaction.rs:826-849 | the decoder's loop counts the signatures, fails exactly above 65535, and finds uncompressed keys |
| `SpendingConditions.FieldLawful` | stacks-codec/src/transaction.rs:684-751 | authorization fields round-trip exactly when the point is valid or the signature has 65 bytes |
| `SpendingConditions.SinglesigLawful` | stacks-codec/src/transaction.rs:1175-1227 | single-signature conditions are lawful; P2WPKH carries compressed keys only |
| `SpendingConditions.MultisigLawful` | stacks-codec/src/transaction.rs:794-876 | both multi-signature conditions are lawful; the signature count matches (or reaches) the required one and P2WSH carries compressed keys only |
| `SpendingConditions.ConditionLawful` | stacks-codec/src/transaction.rs:1305-1349 | spending conditions are lawful through the peeked hash mode, carrying exactly the conditions of each kind |
| `SpendingConditions.AuthLawful` | stacks-codec/src/transaction.rs:1817-1854 | standard and sponsored authorizations are lawful |
| `Transactions.PostConditionLawful` | stacks-codec/src/transaction.rs:2400-2532 | post-conditions round-trip exactly when principal, asset, value and condition code are valid |
| `Transactions.IsPrintable` | stacks-codec/src/strings.rs:107-120 | the scan accepts exactly printable text |
| `Transactions.StringLawful` | stacks-codec/src/strings.rs:58-83 | text round-trips exactly when printable and within the message bound |
| `Transactions.MicroblockHeaderLawful` | stacks-codec/src/transaction.rs:2558-2587 | microblock headers are lawful; the signature must be recoverable |
| `Transactions.TenureLawful` | stacks-codec/src/transaction.rs:314-349 | tenure changes are lawful with causes 0 to 6 |
| `Transactions.NakamotoLawful` | stacks-codec/src/transaction.rs:2980-2998 | Nakamoto coinbases are lawful although optional values of other kinds are accepted and dropped |
| `Transactions.RecipientDropped` | stacks-codec/src/transaction.rs:2983-2997 | an optional recipient holding anything but a principal is accepted and becomes no recipient |
| `Transactions.PayloadLawful` | stacks-codec/src/transaction.rs:2844-3007 | payloads round-trip exactly when well formed |
| `Transactions.EnvelopeLawful` | stacks-codec/src/transaction.rs:3053-3165 | the envelope is lawful given its parts, with its anchor-mode rules and length bound |
| `Transactions.TransactionLawful` | stacks-codec/src/transaction.rs:3053-3165 | the whole transaction format is lawful |
| `TransactionLaws.TransactionCarried` | stacks-codec/src/transaction.rs:3078-3165 | the format carries exactly the well-formed transactions of at most 2 MiB |
| `TransactionLaws.RoundTrip` | stacks-codec/src/transaction.rs:3053-3165 | decoding an encoding followed by any bytes returns the transaction and those bytes if and only if it is well formed and within the bound |
| `TransactionLaws.EncodingPrefixFree` | stacks-codec/src/transaction.rs:3053-3069 | encodings of well-formed transactions are prefix-free and injective |
| `TransactionLaws.DecodingNormalises` | stacks-codec/src/transaction.rs:3078-3165 | every accepted byte string yields a well-formed transaction whose re-encoding is no longer than what was consumed and decodes to it |
| `TransactionLaws.VersionBitsIgnored` | stacks-codec/src/transaction.rs:3093-3097 | changing the low seven bits of the version byte never changes the result |
| `TransactionLaws.ReportedLength` | stacks-codec/src/transaction.rs:3071-3081 | the length reported by the decoder is the transaction's own length on its encoding |
| `TransactionLaws.ReportedAtLeast` | stacks-codec/src/transaction.rs:3078-3165 | on any accepted input the reported length is at least the transaction's own |
| `TransactionLaws.SerializeSucceeds` | clarity-types/src/representations.rs:121-136 | a well-formed transaction never fails to serialize on a contract name |
| `TransactionLaws.LongListsAreRefused` | stacks-common/src/codec/mod.rs:174-181 | a serializable transaction within the length bound whose list would take too much memory does not come back |
| `WireLayout.TransactionLayout` | stacks-codec/src/transaction.rs:3053-3065 | every transaction is written in the documented order and widths, field by field |
| `WireLayout.ConditionLayout` | stacks-codec/src/transaction.rs:794-804 | conditions are hash mode, signer, nonce, fee, then key encoding and signature or fields and count |
| `WireLayout.PayloadLayout` | stacks-codec/src/transaction.rs:2845-2913 | payload bytes are the identifier and the fields of each variant |
| `WireLayout.PostConditionsLayout` | stacks-codec/src/transaction.rs:2401-2450 | post-condition bytes are the identifier, the principal and the fields of each variant |
| `Signing.StepsAgree` | stacks-codec/src/transaction.rs:1708-1775 | one verification step recovers the signer's key and arrives at the hash signing arrived at |
| `Signing.RecoverKeys` | stacks-codec/src/transaction.rs:916-949 | the verifier's loop equals its recursive definition, rolling or not, with its counter and flag |
| `Signing.VerifyMultisig` | stacks-codec/src/transaction.rs:910-983 | the ordered and order-independent verifiers give the specified result, with each error in its order |
| `Signing.VerifyOne` | stacks-codec/src/transaction.rs:1778-1795 | verifying a condition of any kind gives the specified result |
| `Signing.CountSignatures` | stacks-codec/src/transaction.rs:1499-1531 | the signature count panics exactly above 65535 signatures |
| `Signing.AddSignature` | stacks-codec/src/transaction.rs:3294-3335 | a signature is pushed and the next hash returned, or the condition stays as it was |
| `Signing.StacksTransaction.SignNextOrigin` | stacks-codec/src/transaction.rs:3359-3376 | signing for the origin changes the authorization as specified and nothing else |
| `Signing.StacksTransaction.SignNextSponsor` | stacks-codec/src/transaction.rs:3392-3414 | the same for the sponsor, refused on a standard transaction |
| `Signing.StacksTransaction.AppendNextOrigin` | stacks-codec/src/transaction.rs:3379-3388 | appending a key to the origin, refused on single-signature conditions |
| `Signing.StacksTransaction.AppendNextSponsor` | stacks-codec/src/transaction.rs:3417-3427 | appending a key to the sponsor |
| `Signing.StacksTransaction.SetTxFee` | stacks-codec/src/transaction.rs:1998-2003 | the fee is set on the sponsor if there is one, otherwise on the origin |
| `Signing.StacksTransaction.ReplaceSponsor` | stacks-codec/src/transaction.rs:1919-1930 | the sponsor is replaced whole, refused on a standard transaction |
| `Signing.StacksTransaction.VerifySignatures` | stacks-codec/src/transaction.rs:3430-3432 | a transaction verifies as specified: origin first, then the sponsor from the origin's hash |
| `SigningLaws.InitialAuthCommits` | stacks-codec/src/transaction.rs:1943-1957 | clearing keeps of the authorization the origin account and whether it is sponsored, and nothing else |
| `SighashLaws.InitialSighashCommits` | stacks-codec/src/transaction.rs:3278-3290 | two well-formed transactions start from the same hash exactly when they agree in everything but the authorization, in being sponsored, and in the origin account, unless their encodings collide |
| `SighashLaws.SentinelBytes` | stacks-codec/src/transaction.rs:1488-1497 | the stand-in for a sponsor is 103 zero bytes on the wire |
| `SigningLaws.InitialSighashInvariant` | stacks-codec/src/transaction.rs:1631-1649 | no sequence of signing, appending, popping, nonce, fee and sponsor steps changes the starting hash |
| `SigningLaws.OriginIgnoresSponsor` | stacks-codec/src/transaction.rs:2012-2025 | whatever is done to the sponsor, the origin's signatures verify to the same result |
| `SigningLaws.PresignBinds` | stacks-codec/src/transaction.rs:1651-1674 | what is signed determines the hash so far, the role, the fee and the nonce |
| `SigningLaws.PostsignBinds` | stacks-codec/src/transaction.rs:1676-1700 | the hash after a signature determines what was signed, the key encoding and the signature, unless the hash function collides |
| `SigningLaws.EditsTouch` | stacks-codec/src/transaction.rs:1919-2010 | setting nonces, the fee and the sponsor changes the one thing named and nothing else |
| `SigningLaws.PlanScans` | stacks-codec/src/transaction.rs:916-949 | verifying the fields of any plan of signing and key-showing recovers its keys in order and the last hash |
| `SigningSoundness.VerifiedIsAuthorized` | stacks-codec/src/transaction.rs:900-990 | a condition verifies only if its fields stand for keys, by recovery on what each signature covers, that hash to the named signer, with the right number of signatures |
| `SigningSoundness.AuthorizedVerifies` | stacks-codec/src/transaction.rs:1100-1172 | and whenever they do, with the last hash of the chain |
| `SigningSoundness.TransactionSound` | stacks-codec/src/transaction.rs:2027-2039 | a transaction verifies only if the keys of its origin, and of its sponsor continuing from the origin's last hash, authorized it |
| `SigningSoundness.TransactionSufficient` | stacks-codec/src/transaction.rs:2027-2039 | and whenever they did |
| `SigningLaws.MultisigComplete` | stacks-codec/src/transaction.rs:910-983 | for any number of keys and any interleaving of signers, the condition is accepted exactly when the number of signers is right, with the last hash returned while signing |
| `SigningLaws.SinglesigComplete` | stacks-codec/src/transaction.rs:1267-1302 | a single signature by the condition's key is accepted; the hashes agree when the key encodings do |
| `SigningLaws.BuiltMatches` | stacks-codec/src/transaction.rs:1352-1483 | conditions built for a plan's keys match the plan |
| `SigningLaws.StandardComplete` | stacks-codec/src/transaction.rs:3430-3432 | a standard transaction signed in key order verifies |
| `SigningLaws.SponsoredComplete` | stacks-codec/src/transaction.rs:2027-2039 | one run in which the origin signs, the sponsor is filled in and the sponsor signs from the origin's last hash is accepted, and the origin alone already verifies |
| `SigningLaws.DecodedPassesGates` | stacks-codec/src/transaction.rs:1018-1055 | a decoded condition can be rejected only because a key does not recover or the keys are not the signer's, and its signatures can be counted |
| `SigningLaws.SurplusSignatures` | stacks-codec/src/transaction.rs:1100-1172 | replacing a signature of an accepted order-independent condition by its key keeps acceptance and hash exactly while enough signatures remain |
| `SigningLaws.OrderDoesNotMatter` | stacks-codec/src/transaction.rs:3323-3333 | in an order-independent condition each signer's field depends on that signer alone |
| `TriePtrs.EncodedSizes` | stacks-marf/src/node.rs:758-786 | the written lengths are the sizes computed, between 10 and 14 bytes, compressed between 6 and that |
| `TriePtrs.PointerBytes` | stacks-marf/src/node.rs:595-606 | which bytes of an uncompressed pointer hold what, and the bit that tells the width |
| `TriePtrs.CompressedPointerBytes` | stacks-marf/src/node.rs:609-627 | the same for a compressed pointer, with the other block only where needed |
| `TriePtrs.RoundTrip` | stacks-marf/src/node.rs:595-683 | an uncompressed pointer is read back from any longer slice exactly when its identifier claims no width |
| `TriePtrs.RoundTripCompressed` | stacks-marf/src/node.rs:609-723 | a compressed pointer is read back exactly when its identifier has no disk-only bit |
| `TriePtrs.DecodedSize` | stacks-marf/src/node.rs:694-786 | the canonical size of a decoded pointer never exceeds the slice it came from |
| `PtrLists.GetCompressedPtrsSize` | stacks-marf/src/bits.rs:137-157 | the loop computes both sizes and picks the smaller form |
| `PtrLists.WritePtrsCompressed` | stacks-marf/src/node.rs:166-247 | the writer's loops produce the sparse or dense bytes of the form chosen by size |
| `PtrLists.ShorterForm` | stacks-marf/src/node.rs:166-247 | the form with fewer bytes is written, and the dense one if they are equal |
| `PtrLists.NodeStarts` | stacks-marf/src/node.rs:347-359 | the first byte names the kind and the compression, and a sparse list starts with 0xff and its bitmap |
| `PtrLists.MarkedBits` | stacks-marf/src/node.rs:199-211 | the bitmap marks exactly the occupied slots |
| `PtrLists.ReadSizeSuffices` | stacks-marf/src/bits.rs:248-252 | the fixed read buffer never cuts a list short, whichever form it has |
| `PtrLists.ListRoundTrip` | stacks-marf/src/bits.rs:220-486 | all three forms decode from the buffer to the same list, ending exactly behind it; a sparse list is unchanged exactly when its empty slots were default |
| `PtrLists.SparseForgetsCharacter` | stacks-marf/src/bits.rs:329-375 | a list whose empty slot names a character comes back without it |
| `PtrLists.CursorStaysInside` | stacks-marf/src/bits.rs:398-445 | on any bytes the cursor of a compressed list never passes their end |
| `PtrReader.FillBuffer` | stacks-marf/src/bits.rs:252-285 | short and interrupted reads fill the buffer with what the file has, up to its size |
| `PtrReader.FillSlots` | stacks-marf/src/bits.rs:428-477 | the dense and uncompressed loops fill the slots as specified |
| `PtrReader.FillSparseSlots` | stacks-marf/src/bits.rs:363-406 | the sparse loop fills the slots as specified |
| `PtrReader.PtrsFromBytes` | stacks-marf/src/bits.rs:220-486 | reading a node's pointers gives what the bytes in view decode to and leaves the reader behind the list |
| `PtrReader.ReadBack` | stacks-marf/src/bits.rs:220-486 | a written list comes back into the slots and the reader ends exactly behind it, wherever it starts and whatever follows |
| `RootReservation.ResolveInlineChildOffsets` | stacks-marf/src/bits.rs:846-873 | slots with identifier 0 or from 0x80 on stay as they were, every other gets the offset its index stands for and keeps the rest; it fails exactly when one is not placed, having rewritten the ones before it |
| `RootReservation.ResolvedMeans` | stacks-marf/src/bits.rs:113-115 | the specification of the above, by identifier byte |
| `RootReservation.ReservationIs` | stacks-marf/src/bits.rs:834-842 | the base and four bytes for each slot with identifier 1 to 0x7f, unless the sum exceeds 64 bits |
| `RootReservation.WrittenLen` | stacks-marf/src/bits.rs:879-914 | the size a node computes for itself is the number of bytes it writes, uncompressed or compressed |
| `RootReservation.RootFits` | stacks-marf/src/bits.rs:834-842 | the reservation always exists, and after resolution the bytes of the root fit it, uncompressed or compressed, even if the form flips |
| `RootReservation.NodeWithinMax` | stacks-marf/src/bits.rs:795-819 | no node of a kind exceeds the bound used for prefetching |
| `PoxBalances.LockEnds` | clarity/src/vm/database/structures.rs:1725-1832 | a lock is over, and counts as unlocked in full, exactly at its unlock height or at the height its version is retired |
| `PoxBalances.NothingEnds` | clarity/src/vm/database/structures.rs:1725-1832 | balances without a lock stay as they are |
| `PoxBalances.BalanceSnapshot.UnlockAvailable` | clarity/src/vm/database/structures.rs:1293-1304 | expired locks are released, keeping the total |
| `PoxBalances.BalanceSnapshot.Lock` | clarity/src/vm/database/structures.rs:1027-1076 | a new lock as specified, keeping the total even when it fails |
| `PoxBalances.BalanceSnapshot.Extend` | clarity/src/vm/database/structures.rs:1081-1109 | a new unlock height as specified, keeping the total |
| `PoxBalances.BalanceSnapshot.Increase` | clarity/src/vm/database/structures.rs:1113-1155 | a larger lock as specified, keeping the total |
| `PoxBalances.BalanceSnapshot.Set` | clarity/src/vm/database/structures.rs:1173-1221 | a rolled-over lock as specified, keeping the total |
| `PoxLocking.GlobalContext.PoxLock` | pox-locking/src/pox_5.rs:161-197 | the account is written exactly when the lock succeeds |
| `PoxLocking.GlobalContext.PoxExtend` | pox-locking/src/pox_5.rs:205-236 | the account is written exactly when extending or unstaking succeeds |
| `PoxLocking.GlobalContext.PoxIncrease` | pox-locking/src/pox_4.rs:136-176 | the account is written exactly when the increase succeeds |
| `PoxLocking.GlobalContext.PoxLockUpdate` | pox-locking/src/pox_5.rs:241-289 | the account is untouched on failure although the snapshot was moved first |
| `PoxLocking.GlobalContext.PoxRollover` | pox-locking/src/pox_5.rs:315-358 | the account is written exactly when the roll-over succeeds |
| `PoxLocking.GlobalContext.AddStacking` | clarity-types/src/effects/asset_map.rs:221-244 | amounts are summed from epoch 4.0 on, with overflow reported, and replaced before |
| `PoxLocking.GlobalContext.HandleReply` | pox-locking/src/pox_5.rs:370-551 | lock, note and event happen in this order, each only if the ones before did |
| `PoxLocking.GlobalContext.HandleDelegate` | pox-locking/src/pox_4.rs:425-455 | a delegation is noted unless it would overwrite a note |
| `PoxLocking.GlobalContext.HandleContractCall` | pox-locking/src/lib.rs:114-237 | a dispatched call of any version takes the specified step, with retired contracts refused |
| `PoxRuns.StakeIff` | pox-locking/src/pox_5.rs:370-437 | staking and bond registration succeed exactly on these arguments, with this lock |
| `PoxRuns.LockIff` | pox-locking/src/pox_4.rs:62-92 | a fresh lock of any version succeeds exactly on these arguments, with this lock |
| `PoxRuns.IncreaseIff` | pox-locking/src/pox_2.rs:178-222 | an increase succeeds exactly on these arguments, with this lock |
| `PoxRuns.UpdateIff` | pox-locking/src/pox_5.rs:241-289 | an update succeeds exactly on these arguments, with this lock |
| `PoxRuns.ExtendIff` | pox-locking/src/pox_5.rs:205-236 | extending or unstaking succeeds exactly on an active lock with a future height |
| `PoxRuns.CallLocks` | pox-locking/src/lib.rs:114-237 | the lock each kind of accepted call leaves on the account, or that it leaves the account alone |
| `PoxRuns.RetiredIff` | pox-locking/src/lib.rs:124-215 | from which height or epoch on each version is refused |
| `PoxRuns.FailureIsReported` | pox-locking/src/pox_5.rs:403-441 | version 5 never stops the node; earlier versions report only retired contracts and stacking what is stacked |
| `PoxRuns.StepConserves` | pox-locking/src/lib.rs:114-237 | no call changes any account's total, and only the staker's account is written |
| `PoxRuns.RunConserves` | pox-locking/src/lib.rs:114-237 | over every run totals are constant and accounts no call concerns are untouched |
| `PoxRuns.FailureKeepsAccounts` | pox-locking/src/pox_5.rs:403-441 | a call that does not complete changes nothing, unless an allowed lock does not fit the amounts noted, and then exactly the lock is stored |
| `PoxRuns.FailureCanChangeAccounts` | pox-locking/src/pox_5.rs:422-425 | from an empty asset map, two locks whose amounts sum to more than can be noted: the second reports an error and is stored |
| `PoxRuns.StepNotesExactly` | clarity-types/src/effects/asset_map.rs:221-244 | from epoch 4.0 on a call adds exactly its amount to what is noted for the staker |
| `PoxRuns.EarlierStepNotes` | clarity-types/src/effects/asset_map.rs:221-244 | before, an own call to version 4 replaces it by the amount locked, and a delegation by its argument |
| `PoxRuns.NotedAtMost` | clarity-types/src/effects/asset_map.rs:221-244 | what a transaction has noted for an account is at most its total for each staking or updating call |
| `PoxRuns.FailureKeepsAccountsInTransaction` | pox-locking/src/pox_5.rs:403-441 | so no call that reports an error changes anything while those calls times the total can be noted |
| `PoxRuns.RecordIff` | pox-locking/src/pox_5.rs:581-588 | a record is made exactly for the sender of a position-altering call that completes, whatever the contract answered |
| `PoxRuns.RolloverRaisesHeight` | pox-locking/src/pox_5.rs:315-358 | staking on a locked account keeps it locked by version 5 and strictly raises the unlock height |
| `PoxRuns.LockedUntilHeight` | pox-locking/src/pox_5.rs:370-437 | once the burn chain reaches the unlock height the whole balance can be locked afresh; before, no stake can shorten the lock |
| `PoxRuns.ActiveLockFallsOnlyByRollover` | pox-locking/src/pox_5.rs:205-358 | while a lock stays active its amount falls only by a roll-over that goes through |
| `PoxRuns.EventAgrees` | pox-locking/src/pox_5.rs:422-435 | the lock event and the stored lock agree after every call, for an unstake exactly when the contract named the locked amount |
| `PoxRuns.EventsAgree` | pox-locking/src/pox_5.rs:503-551 | from epoch 4.0 on, in every run in which an unstake is answered with the recorded amount, each lock event carries the amount locked |
| `PoxFrames.TransactionConserves` | clarity/src/vm/contexts.rs:800-926 | over every tree of calls each account's total is constant, and accounts no call concerns are untouched |
| `PoxFrames.ErringCallIsUndone` | clarity/src/vm/contexts.rs:1643-1671 | wherever in the tree a call errs, no call follows, its error is reported, and accounts, contract data, asset map and events are as at the start |
| `PoxFrames.RecordedIff` | stacks-codec/src/transaction.rs:2244-2259 | for every tree: a principal is on record exactly when there was no runtime error and it sent a gated call, failed or not, all of whose enclosing functions return ok; the contract's data has exactly the changes of the calls that returned ok in such functions |
| `PoxFrames.SurvivingChangeIsRecorded` | pox-locking/src/pox_5.rs:572-588 | in every tree of calls a surviving gated change is on record for its sender, whose `NotPerformed` condition fails |
| `PoxFrames.AccountChangeIsRecorded` | pox-locking/src/pox_5.rs:572-588 | in every tree, if only gated calls concern an account and its lock is another at the end, the sender of one of them is on record |
| `PoxFrames.FailedAttemptIsNoted` | stacks-codec/src/transaction.rs:2244-2259 | at any depth a failed attempt changes nothing and is on record exactly when every enclosing function returns ok |
| `PoxFrames.NotedAndEmitted` | clarity-types/src/effects/asset_map.rs:258-327 | a transaction without a runtime error has noted exactly the amounts, and emitted exactly the events in order, of the calls in functions that all return ok |
| `PoxFrames.OverflowNeedsManyCalls` | clarity-types/src/effects/asset_map.rs:258-327 | amounts overflow, in the handler or in merging a frame, only in a tree with so many staking and updating calls on one account that its total times their number cannot be noted |
| `PoxFrames.FrameStack.Execute` | clarity/src/vm/contexts.rs:800-926 | the stack of frames with begin, commit and roll-back computes the meaning of the call tree and touches no lower frame |
| `PoxFrames.FrameStack.Handle` | clarity/src/vm/contexts.rs:869-887 | the handler acts on the accounts and on the caller's frame |
| `PoxFrames.FrameStack.Commit` | clarity/src/vm/contexts.rs:1589-1621 | committing merges notes, records and events into the frame below, or undoes the changes if the stacking entries cannot be merged |
| `PoxFrames.FrameStack.RollBack` | clarity/src/vm/contexts.rs:1623-1637 | rolling back restores accounts and contract data and drops what the top frame noted |
| `SignerLoop.RunInv` | libsigner/src/events.rs:284-312 | every interleaving of the threads keeps the invariant |
| `SignerLoop.NothingIsLost` | libsigner/src/events.rs:284-312 | in every interleaving the events accepted, followed by those still queued, are those the node posted, in order |
| `SignerLoop.EventIsForwarded` | libsigner/src/events.rs:469-490 | a waiting receiver puts a posted event, by its own steps, at the end of every channel up to the first whose run loop is gone |
| `SignerLoop.Streams` | libsigner/src/events.rs:469-490 | what a run loop consumed is a prefix of what it was sent, that of what was accepted, and that of what the node posted; any two streams differ by at most one final event |
| `SignerLoop.AtMostOneAfterStop` | libsigner/src/events.rs:413-420 | after the stop flag is first set at most one more event reaches any run loop |
| `SignerLoop.DisconnectedMeansAllConsumed` | libsigner/src/runloop.rs:57-66 | a run loop that ends by disconnection consumed every event sent to it |
| `SignerLoop.ProgressDecreases` | libsigner/src/runloop.rs:51-74 | once stopped, every step but a timeout or a new request lowers a measure of the receiver's phase, the queued events and the run loops |
| `SignerLoop.IdleStep` | libsigner/src/runloop.rs:59-66 | timeouts and requests leave the receiver where it is, and timeouts end with the receiver |
| `SignerLoop.ShutdownIsBounded` | libsigner/src/runloop.rs:101-130 | in every run from a stopped state the threads take a bounded number of steps, plus at most three for each timeout |
| `SignerLoop.ReceiverEnds` | libsigner/src/events.rs:284-312 | once stopped the receiver takes at most one step for each run loop and three more, in any run |
| `SignerLoop.OthersEnd` | libsigner/src/runloop.rs:51-74 | once the receiver has gone all steps but the node's requests are bounded, timeouts included |
| `SignerLoop.ShutdownNeverStuck` | libsigner/src/events.rs:376-396 | when wake-ups are delivered no stopped state of any run is stuck before every thread has ended |
| `SignerLoop.ShutdownCompletes` | libsigner/src/runloop.rs:101-130 | when wake-ups are delivered, every stopped state of every run can be run to the end of all threads by their own steps, within the bound |
| `SignerLoop.BlockedUntilWoken` | libsigner/src/events.rs:376-396 | a step ends the blocking of a stopped receiver exactly when it is a failed read, a request or a delivered wake-up, and the receiver then moves on |
| `SignerLoop.StaysBlocked` | libsigner/src/events.rs:376-396 | in every run without these the receiver stays blocked |
| `SignerLoop.LostWakeUpBlocks` | libsigner/src/events.rs:382-394 | a run that loses the owner's wake-up and blocks the receiver |
| `SignerLoop.RunLoopWakes` | libsigner/src/runloop.rs:68-72 | its continuation in which a run loop comes to its result and every thread ends |
| `BitVec.SetIsUpdate` | stacks-common/src/bitvec.rs:211-232 | setting an entry updates the list at that entry and leaves the padding |
| `BitVec.FromBitsKeeps` | stacks-common/src/bitvec.rs:41-68 | packing a list keeps it, with zero padding |
| `BitVec.EqualIffSameBits` | stacks-common/src/bitvec.rs:25-39 | with zero padding, structural equality is equality of the lists |
| `BitVec.CanonicalIff` | stacks-common/src/bitvec.rs:78-91 | a vector equals the one its booleans build exactly when its padding is zero |
| `BitVec.DecodedPaddingMatters` | stacks-common/src/bitvec.rs:76-92 | two decoded vectors with the same booleans that are not equal |
| `BitVec.BitVecLawful` | stacks-common/src/bitvec.rs:70-92 | every nonempty vector within the limit round-trips, the empty one never |
| `BitVec.PackedBytes` | stacks-common/src/bitvec.rs:70-74 | the number of entries, the number of data bytes, and the data |
| `BitVec.BinaryStrLists` | stacks-common/src/bitvec.rs:241-255 | the display string lists the entries in order |
| `BitVec.BitVector.GetBit` | stacks-common/src/bitvec.rs:201-209 | reading an entry gives the list's entry, or nothing beyond the length |
| `BitVec.BitVector.Set` | stacks-common/src/bitvec.rs:211-232 | setting succeeds exactly within the length and updates the list |
| `BitVec.BitVector.Clear` | stacks-common/src/bitvec.rs:235-239 | clearing gives a list of false and zero padding |
| `BitVec.MakeZeros` | stacks-common/src/bitvec.rs:155-163 | a list of false of the length asked for, with zero padding, refused above the limit |
| `BitVec.MakeOnes` | stacks-common/src/bitvec.rs:166-172 | a list of true of the length asked for, refused above the limit |
| `BitVec.TryFrom` | stacks-common/src/bitvec.rs:41-68 | the packed list, refused when empty or too long |
| `BitVec.BitVecIter.Next` | stacks-common/src/bitvec.rs:126-151 | the iterator gives exactly the entries in order, then nothing |
| `DepthTraverse.OrderReversesPostOrder` | clarity-types/src/representations.rs:422-439 | the visiting order is left-to-right postorder read backwards |
| `DepthTraverse.OrderVisitsEachOnce` | clarity-types/src/representations.rs:422-439 | each occurrence of a node is visited exactly once |
| `DepthTraverse.WalkResult` | clarity-types/src/representations.rs:422-439 | a walk returns the visit of the leftmost leaf, or stops at the first failing node of the order |
| `DepthTraverse.Traverse` | clarity-types/src/representations.rs:422-439 | the loop with the explicit stack terminates and visits exactly in that order |
| `BlobStore.StoreKeeps` | stacks-marf/src/file.rs:288-297 | where the append offset is safe, storing or crashing keeps every recorded blob, the layout and the caches |
| `BlobStore.SafeIffNotTied` | stacks-marf/src/trie_sql.rs:914-918 | every answer of the query is safe exactly when no empty row shares the greatest offset with a blob |
| `BlobStore.DropKeepsIff` | stacks-marf/src/trie_sql.rs:1059-1067 | dropping an unconfirmed trie keeps every blob, and both caches agree with the rows afterwards exactly when its row was in neither |
| `BlobStore.LookupKeeps` | stacks-marf/src/storage.rs:63-87 | look-ups keep both caches in agreement with the rows, and the assertion that a stored identifier is new never fails |
| `BlobStore.RunKeepsBlobs` | stacks-marf/src/file.rs:604-613 | in every run without such a tie that drops no cached row, with crashes anywhere and identifiers reused, each row reads back its blob, confirmed rows keep theirs, and both caches agree |
| `BlobStore.TiedNeedsOneBlob` | stacks-marf/src/trie_sql.rs:750-767 | a tie needs an unconfirmed row and no two blobs |
| `BlobStore.CleanAfterTwoBlobs` | stacks-marf/src/trie_sql.rs:914-918 | once two tries are stored every run that drops no cached row meets those conditions, whatever the database answers |
| `BlobStore.TieIsReached` | stacks-marf/src/trie_sql.rs:760-767 | the first blob and then an unconfirmed trie make a tie, starting from the empty store |
| `BlobStore.StaleHash` | stacks-marf/src/cache.rs:43-57 | after its trie was dropped and the identifier reused, a cached hash is not the row's |
| `BlobStore.TiedCanOverwrite` | stacks-marf/src/trie_sql.rs:914-918 | in every state with such a tie, if the database answers with the empty row, any new blob destroys the recorded one unless the two agree in the bytes they share |
| `BlobStore.TrieFile.AppendTrieBlob` | stacks-marf/src/file.rs:604-613 | the blob is written at the end of the row the database named |
| `BlobStore.TrieFile.GetTrieOffset` | stacks-marf/src/file.rs:503-519 | the offset is the row's, cached or not, and the cache keeps agreeing with the rows |
| `BlobStore.TrieFile.ReadBlobHeader` | stacks-marf/src/file.rs:616-625 | the header at the row's offset |
| `BlobStore.HeaderReadsBack` | stacks-marf/src/blob_layout.rs:64-77 | the header of a recorded blob holds its first 32 bytes as the parent's hash and bytes 36 to 67 as the root's |
| `BlobStore.ReadChunk` | stacks-marf/src/file.rs:144-157 | a reader thread reads its entries one after the other |
| `BlobStore.BulkReadHeaders` | stacks-marf/src/file.rs:640-683 | the chunked parallel read equals reading the entries one after the other |
| `BlobStore.HeadersAreEach` | stacks-marf/src/file.rs:640-683 | with one entry per block it holds each header as read on its own |
| `BlobStore.BlockHashCache.GetBlockHashCaching` | stacks-marf/src/cache.rs:43-57 | the hash is the row's, cached or not, and the two maps stay inverse and agree with the rows |
| `BlobStore.BlockHashCache.StoreBlockHash` | stacks-marf/src/cache.rs:60-64 | storing a new pair keeps the two maps inverse |
| `BlobStore.BlockHashCache.LoadBlockId` | stacks-marf/src/cache.rs:72-74 | an identifier found by hash belongs to that hash |

## Left out

- secp256k1, SHA-512/256, Hash160, VRF and address derivation: parameters with the laws stated above.
- The explicit stack of the Clarity value deserializer: values are decoded recursively, with the same depth limit, order of reads and checks; typed and sanitizing deserialization is not part of this model.
- Clarity's type system: whether a list, tuple, optional or response value is admissible is one parameter.
- Transport of decoder errors: an error is a short read or a refused encoding, without its message.
- The post-condition checks over executed transactions, other than the PoX condition code.
- Threads of the signer: each thread is a sequence of atomic steps; HTTP parsing, event decoding, `spawn` and the result channel are not modelled.
- Trie patch nodes: finding one ends the pointer reader; their contents are not decoded.
- Leaf nodes, node paths and node hashes of the trie; `get_node_max_byte_len` is covered for inner nodes.
- PtrReader.PtrsFromBytes: on a failure the slots may have been partly overwritten; what they then hold is not stated.
- PoX print events, costs and the parsing of contract responses: a response is given as accepted with its values, as a contract error, or as malformed.
- PoxFrames.RecordedIff: the contract's own data is represented by the calls that changed it; that the staker is always the sender is the contract's doing and not part of this model.
- STX transfers and burns inside a transaction, and the other entries of the asset map; merging those may fail too, which counts as a runtime error here.
- SQL, file system flushing, prefetch hints, migration and vacuum of the blob file; reads of the parallel header reader are sequential here, one chunk at a time.
- BitVec serde and SQL conversions, and JSON everywhere.
- Versioned block proposal data, StackerDB sessions and the signer's HTTP client.
