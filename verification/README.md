# Verified model of the ledger-compliance client

This project models the client side of a verifiable ledger and proves what its checks are worth against a
server that may answer anything.

A client trusts one pair `(TxId, TxHash)` per API key. The pair lives in a cache that several clients share
under one lock. Every verified operation locks the cache, fetches the trusted state, sends a request, checks
the untrusted reply, stores the new state and unlocks.

The main results, in the system's own terms:

- **Reads are exact.** A reply can move the client from one state to another on an entry if and only if the entry
  is recorded on a history that continues the old state (on first use: in the tree of the stored header). What
  the recorded entry says about the requested key is exact too.
- **Writes are exact.** A single write is accepted exactly for a one-entry live transaction with the requested
  pair. The replies accepted for a batch write hold the exact contents precisely when the requested keys are
  pairwise distinct, or nothing is accepted at all.
- **No rollback, no fork, no lost update** over every interleaving of any number of clients, and every server, for
  what the last store of each operation rests on. The operations of the client are runs of that machine; so, for
  every sequence of calls by any clients, what each accepted call claims is recorded on its slot's final history.
  The client's methods are shown to make such calls.
  A call claims its read entry or its written pairs; a batch read claims its last error-free item and those no
  newer than its start.
- **Batch reads** are described exactly, including what is not guaranteed: the items of one batch can lie on
  different forks, and then only those on the history of the last one remain recorded.
- **Completeness.** An honest server's replies are accepted in every order of state and transaction, and the whole
  operation succeeds exactly when the signing key accepts the resulting state, also seen through the requests that
  are sent; the streamed read and the batch write, for which more is up to the caller and the server, have exact
  conditions.
- **Error paths, results and lock discipline** are described on every path: which error a caller gets, what a batch
  read hands over, and what is left in the cache.
- **Cache keys and identities** are uniquely decodable, with the exact conditions.

Six properties one might expect do not hold of the code. Each has an input and its exact condition:

- First use can store an ID with the hash of another transaction, even from an honest server (`FirstUse`,
  `FirstUseCanMisanchor`, `HonestStreamGetAccepted`, `HonestServerCanMisanchor`). Such a state accepts nothing
  afterwards (`MisanchoredIsStuck`).
- A reply that names a reference answers every request, with every value (`LeafUnderRequestedKey`,
  `AcceptedAreUnderKeyIff`, `ReferenceIgnoresRequest`, `ReferenceAnswersAnyKey`, `AnotherKeysReferenceIsAccepted`).
- A batch write with a repeated pair is accepted although one copy was replaced (`BatchExactIff`,
  `RepeatedPairCanBeReplaced`).
- A batch read of two or more items is accepted although they lie on different forks (`BatchRecordsAllIff`,
  `BatchCanFork`, `BatchRecords`).
- What an accepted streamed write holds is what was captured, not what was sent. After a Read that delivers less
  than the declared size, a transaction with the zero-filled pairs is accepted (`AcceptedHoldsSent`,
  `StreamedWriteHoldsSentIff`, `ShortReadIsAccepted`). Whether the sender lets a pair out that is shorter than
  declared is up to the library; if it does and the server commits it, the client refuses (`AcceptedIffAllFull`).
- A newline in a field, and for artifacts and labels also a second hash, gives another request the same cache key
  text (`NewlineCollides`, `ArtifactCollides`, `LabelCollides`).

One more follows if a signing key accepts states of one Db name only: the reads check a state under the hashed API
key, the writes and the streamed read one under the API key itself, so with such a key not both can succeed once
these differ (`OneNamePerKey`, `IdentityDiffers`).

The repository's README calls the verified operations `SafeGet` and `SafeSet`; the code, which this model
follows, calls them `VerifiedGet` and `VerifiedSet`.

## Layout

| file | contents |
|---|---|
| `ImmuStore.dfy` | **assumption**: a symbolic model of the immudb functions the client calls |
| `History.dfy` | histories committed to by a hash, recorded entries, justified states |
| `GetVerification.dfy`, `SetVerification.dfy` | the checks of reads and writes and their meaning |
| `Ledger.dfy`, `Completeness.dfy` | an honest server; completeness of the checks and of whole operations |
| `CacheProtocol.dfy` | the clients, the lock and the shared cache as a state machine; safety |
| `Operations.dfy` | the effect of each operation on its slot; error paths; the batch loop |
| `Refinement.dfy`, `Calls.dfy` | operations, and sequences of calls, are runs of the state machine |
| `Sessions.dfy` | the client's methods are such calls |
| `ShortReads.dfy` | what a streamed write means when a Read delivers less than declared |
| `StateService.dfy`, `StreamCapture.dfy`, `Client.dfy` | the imperative code: state service, stream capture, client |
| `Text.dfy`, `Base64.dfy`, `CacheKeys.dfy`, `ApiKey.dfy` | key text and identities |

`dafny verify dfyconfig.toml` checks everything.

## Assumptions about the library

immudb's own code is not part of this model. `ImmuStore.dfy` stands for it, and everything in that file is an
assumption about it:

- Hashes are terms of a datatype: hashing is collision-free, and hashes of different kinds (entries of version
  0 and 1, leaves, nodes, headers) never coincide.
- `Alh` commits to the ID, the previous `Alh`, and an inner hash with version, entry count and `Eh`.
- An inclusion proof is a path of siblings through a binary hash tree. `tx.Proof` gives the path of the first
  entry with the key.
- A dual proof is accepted only for `0 < sourceID <= targetID`, with both IDs and hashes matching its headers,
  and the inner hashes of the transactions in between lead from one to the other.
- `TxFromProto` rebuilds the entry tree, so `Header().Eh` is the root over `Entries()`.
- Absent metadata and metadata without attributes hash alike; version 0 entries hash no metadata.

SHA-256 over text is a function parameter `sha`; nothing assumes that it is injective, the results say "equal
exactly when the hashes are". A signing key is the set of states whose signature it accepts. Requests, faults
and the server's replies are parameters, so every result holds for all of them.

## Model

| member | source | states |
|---|---|---|
| GetVerification.GetTransition | grpcclient/lc_api.go:565-609 | an accepted read from TxId > 0: old and new state anchored, history continued, TxId the maximum, hash unchanged unless the entry is strictly newer, entry recorded in transaction vTx of that history |
| GetVerification.FirstUse | grpcclient/lc_api.go:565-609 | without a trusted state: what is stored, and that it is anchored exactly when the target header has the claimed ID |
| GetVerification.FirstUseCanMisanchor | grpcclient/lc_api.go:565-609 | a concrete reply accepted on first use that leaves an unanchored state |
| GetVerification.MisanchoredIsStuck | grpcclient/lc_api.go:589-600 | an unanchored state rejects every reply |
| GetVerification.GetJustified | grpcclient/lc_api.go:539-610 | every accepted read stores a justified state with its evidence recorded |
| GetVerification.LeafUnderRequestedKey | grpcclient/lc_api.go:556-609 | of an accepted reply: the recorded entry is under the requested key with the returned value exactly for direct entries, and under the requested key at all exactly for these and references of that key |
| GetVerification.AcceptedAreUnderKeyIff | grpcclient/lc_api.go:556-609 | for every state and request: all accepted replies are about the requested key only where nothing is accepted |
| GetVerification.ReferenceIgnoresRequest | grpcclient/lc_api.go:559-563 | a reply that names a reference is judged alike for every request and every returned value |
| GetVerification.ReferenceAnswersAnyKey | grpcclient/lc_api.go:556-600 | from every anchored state, a recorded reference of any key answers a request for any other |
| GetVerification.AnotherKeysReferenceIsAccepted | grpcclient/lc_api.go:556-600 | a concrete state and reply: the reference of one key accepted for every request |
| GetVerification.GetExact | grpcclient/lc_api.go:539-610 | a move from one state to another on an entry can be proven to the client if and only if the version is 0 or 1 and the entry is recorded on a history continuing the old state, or on first use in the tree of the stored header |
| GetVerification.GetErrors | grpcclient/lc_api.go:540-600 | only versions 0 and 1 are accepted; an unknown version gets its own error, anything else is corrupted data |
| SetVerification.SetExact | grpcclient/lc_api.go:192-252 | a single write is accepted exactly for one live entry with the requested key and value, bound to the trusted state |
| SetVerification.SetErrors | grpcclient/lc_api.go:192-245 | which error a rejected single write gets |
| SetVerification.AdvanceTransition | grpcclient/lc_api.go:221-252 | the new state is the hash of the rebuilt transaction; never backwards; at an equal ID unchanged; the reply's target header carries the same entry root |
| SetVerification.AdvanceExact | grpcclient/lc_api.go:225-252 | from every state, a transaction can be bound to it if and only if its hash continues the trusted history |
| SetVerification.MisanchoredAdmitsNoWrite | grpcclient/lc_api.go:233-245 | an unanchored state accepts no write |
| SetVerification.PairChecksMeaning | grpcclient/lc_streams_api.go:148-161 | the inclusion loop succeeds exactly when the first entry under each key has the pair's value and the positional metadata |
| SetVerification.BatchExact | grpcclient/lc_streams_api.go:135-161 | with distinct keys the accepted transaction holds exactly the requested pairs, as a multiset |
| SetVerification.BatchMetadata | grpcclient/lc_streams_api.go:154-155 | metadata taken by position is the metadata of the entry found by key |
| SetVerification.PassesExactly | grpcclient/lc_streams_api.go:135-161 | with distinct keys the entry checks pass exactly for the requested pairs in any order, with the metadata in place |
| SetVerification.StreamSetErrors | grpcclient/lc_streams_api.go:135-187 | which error a rejected batch write gets: that of the first pair that does not match, a missing key told apart |
| SetVerification.PassingIsConsistent | grpcclient/lc_streams_api.go:148-161 | a request giving one key two values is never accepted |
| SetVerification.RepeatedPairCanBeReplaced | grpcclient/lc_streams_api.go:135-194 | from every anchored state, a write that repeats a pair is accepted for a transaction with foreign contents |
| SetVerification.BatchExactIff | grpcclient/lc_streams_api.go:135-194 | for every state and request, the exact condition under which all accepted replies hold exactly the requested pairs |
| SetVerification.StreamSetJustified | grpcclient/lc_streams_api.go:135-194 | an accepted batch write justifies its state with evidence for every pair, and its hash is that of the transaction |
| Ledger.HonestGetAccepted | grpcclient/lc_api.go:509-519 | an honest reply proven since the client's state is accepted in every order, for direct entries and references, and leads to a ledger state |
| Ledger.HonestStreamGetAccepted | grpcclient/lc_streams_api.go:224-297 | for which caller-chosen `ProveSinceTx` the honest streamed reply is accepted, exactly, also on first use, and when the client ends in a state of the ledger |
| Ledger.HonestServerCanMisanchor | grpcclient/lc_streams_api.go:224-304 | a concrete honest ledger from which a new client takes an ID with the hash of another transaction |
| Ledger.HonestSetAccepted | grpcclient/lc_api.go:176-252 | an honestly committed single write is accepted and leads to the ledger's state |
| Ledger.HonestStreamSetAccepted | grpcclient/lc_streams_api.go:118-194 | when an honestly committed batch under distinct keys is accepted, exactly: any order, with metadata in place; it leads to the ledger's state |
| Ledger.HonestInAnyOrder | grpcclient/lc_streams_api.go:118-194 | without metadata, the requested pairs committed in any order are accepted |
| Completeness.HonestReadCompletes | grpcclient/lc_api.go:509-536 | an honest read stores the ledger's state and succeeds exactly when the key accepts it |
| Completeness.HonestStreamReadCompletes | grpcclient/lc_streams_api.go:219-318 | an honest streamed read succeeds, and stores, exactly when the key accepts the ledger's state |
| Completeness.HonestWriteCompletes | grpcclient/lc_api.go:176-266 | an honest single write succeeds, and stores, exactly when the key accepts the ledger's state |
| Completeness.HonestStreamWriteCompletes | grpcclient/lc_streams_api.go:110-208 | when an honestly answered batch write succeeds as a whole, exactly |
| Completeness.HonestReadAsked | grpcclient/lc_api.go:509-536 | a read of a server that answers this very request, since whatever transaction it is asked |
| Completeness.HonestReadExtAsked | grpcclient/lc_api.go:406-432 | the same for the extended read |
| Completeness.HonestBatchAsked | grpcclient/lc_api.go:451-494 | the same for the batch read of a server that answers each request for itself |
| Completeness.HonestArtifactAsked | grpcclient/lc_api.go:110-156 | the same for a verified artifact whose full key is the hash with something before and after |
| Completeness.HonestWriteAsked | grpcclient/lc_api.go:176-266 | a single write to a server that commits the pair it is asked to commit |
| Completeness.HonestStreamWriteAsked | grpcclient/lc_streams_api.go:110-208 | a batch write, with full Reads and distinct keys, to a server that commits the pairs it is sent |
| History.SameIdSameTransaction | grpcclient/lc_api.go:602-607 | two recorded pieces of evidence with one ID are about one transaction |
| History.RecordedPersists | grpcclient/lc_api.go:602-607 | what is recorded stays recorded when the trusted state moves on |
| CacheProtocol.NextKeepsInv | grpcclient/lc_state_service.go:32-46 | every step of every client keeps the invariant of lock, cache and history |
| CacheProtocol.ReadsFormAChain | grpcclient/lc_state_service.go:32-46 | over all interleavings, the states fetched for a slot form a chain of continued histories |
| CacheProtocol.AcceptedLieOnOneHistory | grpcclient/lc_api.go:435-537 | over all interleavings, what the last store of each operation rests on lies on the history of the cached state; equal IDs mean equal transactions |
| CacheProtocol.NoLostUpdate | grpcclient/lc_api.go:435-537 | over all interleavings, the step before a store is the same client's fetch or store, and the slot holds exactly the state of that step |
| CacheProtocol.OwnerRunsAlone | grpcclient/lc_state_service.go:40-46 | over all interleavings, every step since the lock was taken is that client's own |
| Operations.ReadOutcome | grpcclient/lc_api.go:519-534 | a failed read leaves the old state, or a proven one if only the signature was wrong, with the error of the step that failed; a success stores a proven state with checked signature |
| Operations.ArtifactOutcome | grpcclient/lc_api.go:110-156 | the same for the verified artifact read |
| Operations.SetOutcome | grpcclient/lc_api.go:247-264 | a single write is all or nothing, stores only states with a checked signature, and otherwise returns the error of the step that failed |
| Operations.StreamSetOutcomes | grpcclient/lc_streams_api.go:189-206 | the same for the batch write |
| Operations.NotCaptured | grpcclient/lc_streams_api.go:91-102 | a batch write that could not be captured changes nothing and reports the failed Read |
| Operations.StreamGetOutcome | grpcclient/lc_streams_api.go:299-316 | the same for the streamed read |
| Operations.PerformedIsSection | grpcclient/lc_api.go:497-537 | lock discipline of an operation that fetched a state: one lock, fetch and stores inside, unlocked at the end |
| Operations.BeginMeans | grpcclient/lc_state_service.go:32-42 | what an operation starts from, and the error if it cannot: a filled slot, or the server's report for an empty one |
| Operations.RefusedIsSection | grpcclient/lc_api.go:497-507 | lock discipline of an operation that got no lock or no state |
| Operations.BatchOutcome | grpcclient/lc_api.go:474-494 | how a batch read ends: all good items verified and last one cached, or the first bad item's error and the last item written |
| Operations.BatchTransition | grpcclient/lc_api.go:474-494 | a successful batch verifies every error-free item against the start and ends at the later of start and last good item |
| Operations.BatchRecords | grpcclient/lc_api.go:474-494 | an item of a successful batch is recorded at the end exactly when the final history continues what the item stored; always so for the last item and those no newer than the start |
| Operations.BatchCanFork | grpcclient/lc_api.go:474-494 | from every anchored state, a batch of two or more is accepted with its first and last item on different forks |
| Operations.BatchRecordsAllIff | grpcclient/lc_api.go:474-494 | for every start and request, and over all faults and signing keys, the exact condition under which all items of all accepted batches are recorded at the end |
| Operations.BatchEffectLawful | grpcclient/lc_api.go:460-494 | every state a batch writes is justified by the state read at the start |
| Operations.SingletonBatch | grpcclient/lc_api.go:394-495 | a batch of one item has the effect of the single read from every start and reply, and returns the same item and error |
| Operations.BatchHandsOver | grpcclient/lc_api.go:460-494 | what a batch read hands to its caller, for any number of requests: the reply as received with every error-free item verified, or nothing and which error, or a misshapen reply |
| Operations.ArtifactBound | grpcclient/lc_api.go:116-143 | an accepted artifact's key contains the requested hash and its entry, value and metadata are what is recorded |
| Operations.ContainsMeans | grpcclient/lc_api.go:121 | the hash occurs in the key exactly when the key is something, the hash and something |
| Operations.ArtifactExact | grpcclient/lc_api.go:111-143 | when an artifact is accepted, exactly, and which error it gets otherwise |
| Refinement.OperationRuns | grpcclient/lc_api.go:497-537 | an operation run while the lock is free is a run of the interleaving machine: same cache, its start counted as fetched, the evidence of its last store as accepted |
| Calls.EndedAsCalled | grpcclient/lc_api.go:497-537 | what the client's methods promise determines cache and events of a call |
| Calls.UnstartedReports | grpcclient/lc_api.go:498-507 | a call without a state to start from stores nothing and returns that error |
| Sessions.VerifiedGet | grpcclient/lc_api.go:497-537 | the method makes a call: its cache, its events, and a result exactly when the call counts as accepted |
| Sessions.VerifiedGetExt | grpcclient/lc_api.go:394-433 | the same |
| Sessions.VerifiedGetExtMulti | grpcclient/lc_api.go:435-495 | the same |
| Sessions.VCNGetArtifacts | grpcclient/lc_api.go:99-156 | the same, on the verified path |
| Sessions.VerifiedSet | grpcclient/lc_api.go:164-267 | the same |
| Sessions.StreamVerifiedSet | grpcclient/lc_streams_api.go:65-209 | the same, for a non-empty list of pairs |
| Sessions.StreamVerifiedGet | grpcclient/lc_streams_api.go:212-319 | the same |
| Calls.MadeInTurn | grpcclient/lc_api.go:435-537 | calls made one after the other leave the caches of the sequence |
| Calls.CallsRun | grpcclient/lc_api.go:435-537 | any sequence of calls by any clients is a run of the interleaving machine with the cache the calls leave |
| Calls.OnlyFirstUseMisanchors | grpcclient/lc_api.go:565-607 | an accepted call from a state with transactions leaves an anchored state |
| Calls.AcceptedStaysRecorded | grpcclient/lc_api.go:435-610 | for every sequence of calls, the final state continues every accepted call's start and has its entry or pairs recorded |
| Calls.OlderItemStaysRecorded | grpcclient/lc_api.go:474-494 | so have, of an accepted batch read, all error-free items no newer than its start |
| Calls.AcceptedAgree | grpcclient/lc_api.go:435-610 | two accepted calls about one transaction ID are about one transaction |
| Calls.AcceptedIsSigned | grpcclient/lc_api.go:529-534 | what an accepted call stores last is under its Db name and has a checked signature |
| Calls.OneNamePerKey | grpcclient/lc_api.go:602-607 | with a signing key that accepts one Db name only, all accepted calls that store anything use that name |
| StateService.StateService.GetState | grpcclient/lc_state_service.go:32-34 | returns the slot's state; an empty slot is filled with the server's report |
| StateService.StateService.SetState | grpcclient/lc_state_service.go:36-38 | overwrites exactly the API key's slot, or nothing on failure |
| StateService.StateService.CacheLock | grpcclient/lc_state_service.go:40-42 | succeeds exactly when free and not failing |
| StateService.StateService.CacheUnlock | grpcclient/lc_state_service.go:44-46 | frees the lock |
| StateService.OtherKeysUntouched | grpcclient/lc_state_service.go:32-38 | an operation under one API key leaves another's slot alone unless their hashes collide |
| StreamCapture.Reader.Read | grpcclient/lc_streams_api.go:89-93 | one Read: the bytes delivered, the rest of the buffer untouched, the reader advanced |
| StreamCapture.Capture | grpcclient/lc_streams_api.go:88-95 | one Read through a tee: fails exactly when the reader reports an error or has run out; the replacement reader holds the delivered bytes, the captured bytes are these and zeros |
| StreamCapture.CapturePair | grpcclient/lc_streams_api.go:87-106 | one round of the capture loop, and exactly when it fails, also for a shared reader |
| StreamCapture.CaptureAll | grpcclient/lc_streams_api.go:85-107 | the capture loop succeeds exactly when every Read in its turn does, and what it then captures and puts back, also when readers are shared |
| StreamCapture.AllReadableMeans | grpcclient/lc_streams_api.go:91-102 | the capture succeeds exactly when no reader reports an error and none that is asked for bytes has run out in its turn |
| StreamCapture.OneReaderInOrder | grpcclient/lc_streams_api.go:87-107 | the order of the Reads: one reader over all the bytes is read pair after pair, each key before its value |
| StreamCapture.FilledWithZeros | grpcclient/lc_streams_api.go:90-99 | a captured buffer is the delivered bytes followed by zeros |
| StreamCapture.CapturedIsSent | grpcclient/lc_streams_api.go:85-107 | for the whole call: captured and sent pairs coincide exactly when every Read filled its buffer, and these with the caller's pairs exactly when every reader delivers the declared bytes at once |
| StreamCapture.FullReads | grpcclient/lc_streams_api.go:89-105 | every Read fills its buffer exactly when every reader, in its turn, holds the declared number of bytes and delivers them at once |
| ShortReads.AcceptedHoldsSent | grpcclient/lc_streams_api.go:85-194 | for every server: an accepted transaction holds exactly the sent pairs if and only if every Read filled its buffer |
| ShortReads.StreamedWriteHoldsSentIff | grpcclient/lc_streams_api.go:85-194 | for every state and all readers, the exact condition under which all accepted transactions hold what was sent |
| ShortReads.ShortReadIsAccepted | grpcclient/lc_streams_api.go:85-161 | a concrete reader that delivers one byte of two: what is captured, what is sent, and a transaction with the zero-filled key accepted |
| ShortReads.AcceptedIffAllFull | grpcclient/lc_streams_api.go:85-194 | supposing the sender lets short pairs out and the server honestly commits the delivered bytes: the batch write succeeds exactly when every Read filled its buffer |
| ShortReads.ShortReadIsRefused | grpcclient/lc_streams_api.go:85-161 | on the same supposition, a concrete short pair whose commit the client refuses |
| Client.CheckInclusion | grpcclient/lc_streams_api.go:149-160 | one round of the inclusion loop |
| Client.CheckInclusions | grpcclient/lc_streams_api.go:148-161 | the loop returns the first failure among the checks |
| Client.StreamVerification | grpcclient/lc_streams_api.go:242-304 | the inlined verification accepts and computes exactly what `verifyGet` does, but for `Db` |
| Client.StreamSetVerification | grpcclient/lc_streams_api.go:135-194 | the inlined batch verification meets its specification |
| Client.LcClient.VerifiedGet | grpcclient/lc_api.go:497-537 | cache, events, lock and result after a verified read, on every path |
| Client.LcClient.VerifiedGetExt | grpcclient/lc_api.go:394-433 | the same for the extended read |
| Client.LcClient.VerifiedGetExtMulti | grpcclient/lc_api.go:435-495 | the same for the batch read |
| Client.LcClient.VerifiedGetExtAtMulti | grpcclient/lc_api.go:316-329 | request i pairs `keys[i]` with `txs[i]`; unequal lengths change nothing |
| Client.OneRequestBatch | grpcclient/lc_api.go:308-329 | the batch read of one key at one transaction is the single read of it, for a server that answers both alike |
| Client.LcClient.VCNGetArtifacts | grpcclient/lc_api.go:87-157 | the verified path as a read; the unverified path touches neither lock nor state |
| Client.LcClient.VerifiedSet | grpcclient/lc_api.go:164-267 | cache, events, lock and result after a verified write, on every path |
| Client.LcClient.StreamVerifiedSet | grpcclient/lc_streams_api.go:65-209 | the same for the batch write, when the capture succeeds, and what the sender gets: the delivered bytes with the declared sizes |
| Client.LcClient.StreamVerifiedGet | grpcclient/lc_streams_api.go:212-319 | the same for the streamed read |
| Client.LcClient.Connect | grpcclient/lc_client.go:198-206 | the identity is that of the API key, or unchanged without separator |
| CacheKeys.VCNSearchRequest.GetKey | schema/cache.go:18-34 | the key is the hash of the joined pieces |
| CacheKeys.VCNArtifactsGetRequest.GetKey | schema/cache.go:9-16 | the key is the hash of the joined pieces |
| CacheKeys.VCNLabelsGetRequest.GetKey | schema/cache.go:36-44 | the key is the hash of the joined pieces |
| CacheKeys.KeyOfInjective | schema/cache.go:33 | keys are equal exactly when the hashes are |
| CacheKeys.KeyOfDecodes | schema/cache.go:33 | a key is the hash in lower-case hex |
| CacheKeys.FieldsInjective | schema/cache.go:21-31 | the eleven rendered fields determine the request, with unnamed enum numbers |
| CacheKeys.SearchTextDecodes | schema/cache.go:18-32 | splitting the text of a newline-free request recovers prefix and fields |
| CacheKeys.SearchLines | schema/cache.go:18-32 | which line of the text holds which field, with enum names, numbers and truth values spelled out |
| CacheKeys.SearchTextInjective | schema/cache.go:18-32 | among newline-free requests texts are equal exactly when prefix and fields are |
| CacheKeys.NewlineCollides | schema/cache.go:18-32 | under one prefix, whatever it contains, another request has the same text exactly when a text field has a newline |
| CacheKeys.PrefixNewlineCollides | schema/cache.go:18-32 | with a newline in the prefix, the same request under another prefix has the same text |
| CacheKeys.SearchKeyInjective | schema/cache.go:18-34 | without hash collision, search keys are equal exactly when prefixes and fields are |
| CacheKeys.ArtifactTextInjective | schema/cache.go:9-14 | what the artifact text determines, and when also the boundary between hashes and prefixes |
| CacheKeys.ArtifactLines | schema/cache.go:9-14 | the lines of the text: hashes, prefixes, `ProveSinceTx` |
| CacheKeys.ArtifactKeyInjective | schema/cache.go:9-16 | without hash collision, artifact keys under prefixes of one length are equal exactly when prefixes, hashes and `ProveSinceTx` are; `verify`, UID and signer do not matter |
| CacheKeys.ArtifactCollides | schema/cache.go:9-14 | under one prefix, another artifact request has the same text exactly when this one has two hashes or more, or one with a newline |
| CacheKeys.LabelTextInjective | schema/cache.go:36-42 | what the label text determines, with the exception of no piece and one empty piece |
| CacheKeys.LabelLines | schema/cache.go:36-42 | the lines of the text: prefixes, hashes |
| CacheKeys.LabelKeyInjective | schema/cache.go:36-44 | without hash collision, label keys under one prefix are equal exactly when the hashes are, but for one empty piece; signers do not matter |
| CacheKeys.LabelCollides | schema/cache.go:36-42 | under one prefix, other label hashes have the same text exactly when these are two or more, or one with a newline, or none or an empty one without prefixes |
| ApiKey.SlotsIsolated | grpcclient/lc_state_service.go:52-55 | two API keys share a slot exactly when their hashes collide |
| ApiKey.SlotShape | grpcclient/lc_state_service.go:52-55 | a slot name is 43 characters of the standard alphabet and one of padding |
| ApiKey.HashedApiKeyCuts | grpcclient/lc_client.go:199-205 | split, hash and rejoin is cutting at the last separator |
| ApiKey.SignerRecovered | grpcclient/lc_client.go:199-205 | cutting the identity at its last separator recovers the signer, and the rest decodes to the hash |
| ApiKey.IdentityInjective | grpcclient/lc_client.go:199-205 | identities are equal exactly when signers and secret hashes are |
| ApiKey.IdentityDiffers | grpcclient/lc_client.go:199-205 | the identity is the API key itself exactly when the secret is the encoding of its own hash |
| ApiKey.IdentityShape | grpcclient/lc_client.go:199-205 | an identity ends with a separator and 43 characters of the URL alphabet |
| Base64.RoundTrip | grpcclient/lc_state_service.go:52-55 | base 64 (RFC 4648, sections 4 and 5) is decodable |
| Base64.EncodedShape | grpcclient/lc_state_service.go:54 | length, alphabet and padding of both encodings |
| Base64.Vectors | grpcclient/lc_state_service.go:54 | the test vectors of section 10 of RFC 4648 for up to three bytes |
| Base64.AlphabetsDiffer | grpcclient/lc_client.go:204 | bytes on which the two alphabets differ |
| Base64.NoDot | grpcclient/lc_client.go:204 | base 64 text contains no separator |
| Text.SplitJoin | schema/cache.go:32 | joined separator-free pieces are recovered by splitting |
| Text.JoinInjective | schema/cache.go:42 | when two lists of separator-free pieces join to one text |
| Text.JoinSameCount | schema/cache.go:32 | separator-free pieces are told apart from any pieces of the same number |
| CacheKeys.EnumTextsDiffer | schema/cache.go:23-24 | names and numbers of enums never render alike |
| Text.HexRoundTrip | grpcclient/lc_api.go:116-119 | hex text is decodable |
| Text.HexDecodeExact | grpcclient/lc_api.go:116-119 | what the hex decoder accepts, exactly: hex text in upper or lower case |
| Text.DecimalUnique | schema/cache.go:13 | the decimal text of a number is the only one without leading zero that reads as it |

## Left out

- The server, gRPC dialling, interceptors, retries, TLS, credentials, loggers, the UUID provider: the server is an arbitrary function of the request, an empty slot is filled with an arbitrary report.
- Pass-through calls (`Set`, `Get`, `Scan`, `History`, label and file calls) and the unverified streams: they have no logic of their own.
- The binary linking inside immudb's dual proofs: the history between two transactions is proven by the inner hashes in between.
- Hash collisions, ECDSA and the byte layout of entries: see the assumptions.
- Nil messages and empty entry lists in replies: the Go code fails on them; messages are complete here, and the verified artifact read requires a non-empty reply.
- Claims the code does not make: that an entry honours `AtTx` or `SinceTx`, that the value behind a reference is proven, that the items of one batch agree with each other.
- IDs are unbounded naturals: they are only compared and copied. The int32 conversion of the entry count is modelled.
- Client.LcClient.Connect: only sets the identity, because dialling and building the state service are plumbing.
- StateService.StateService.SetState: is atomic, because what a half-written cache file holds is up to immudb's cache.
- StateService.StateService.CacheUnlock: cannot fail, because the deferred calls ignore its error.
- StreamCapture.CaptureAll: does not model two positions of the argument slice holding the same pair object, because pairs are values here; shared readers are modelled.
- Client.LcClient.StreamVerifiedSet: hands the replacement readers' contents and the declared sizes to the server at once, because the framing of the stream is library code; so is whether a pair shorter than declared gets out.
- Sessions.VerifiedGet: and the other calls start with a free lock; a call that finds it taken changes nothing, as the contracts of the client's methods say.
