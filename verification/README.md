# GoreeCloud Sync: replication and payload transfer, verified

This project models two parts of GoreeCloud Sync and the trust layer around the second, and
proves properties of whole runs of them.

**Record replication.** A node keeps a last-writer-wins store, a replay guard with one
high-water mark per device and record, and a log of observation receipts. Records are ingested
behind a signature, the guard and a policy decision; old tombstones are compacted once receipts
confirm them; and the store is read back in pages. `records.dfy`, `conflict.dfy`, `policy.dfy`,
`search_history.dfy`, `replay_guard.dfy`, `receipts.dfy`, `compaction.dfy` and `ingest.dfy` hold
the operations; `ingest_outcome.dfy` says field by field what an ingest demands. `convergence.dfy`,
`replication_runs.dfy`, `guard_memory.dfy`, `resurrection.dfy` and `replay_transparency.dfy` hold
what is true of runs. `listing.dfy`, `retrieval_page.dfy`, `retrieval_walk.dfy` and
`retrieval_closure.dfy` cover pagination.

**Payload transfer.** `streams.dfy` and `frames.dfy` are the byte layer: readers that split their
data and writers that write part of theirs. `manifest.dfy` is the chunked manifest.
`payload_transfer.dfy` and `payload_sending.dfy` give each side of the protocol as a machine over
frames, and prove that the two methods run exactly that machine over a byte stream; `gates.dfy` is
the source or destination they are given, with or without trust checks. `staging_safety.dfy` takes
an arbitrary sender, and `payload_transcript.dfy` says exactly which conversations end well, whoever
is at the other end. `payload_agreement.dfy` joins the two machines, and the two calls, by whatever
bytes arrive. `payload_session.dfy`, `payload_outcome.dfy` and `payload_bytes.dfy` join the two
machines by bounded FIFO channels, under every schedule.

**Trust around it.** `trusted_devices.dfy` and `trust_runs.dfy` are the device registry;
`peers.dfy`, `secure_peers.dfy`, `gates.dfy` and `guarded_calls.dfy` the checkpoints, which sit
inside the transport calls themselves; `publication.dfy` and `end_to_end.dfy` the final file.

Conventions. A method that changes state is proved equal to a function of the old state, and the
lemmas are about that function. File operations take their success as an argument. Strings are
sequences of code points (records arrive as JSON, hence valid UTF-8) and `ByteLen` is their length
in bytes. Times are integers with 0 as Go's zero time. The payload hash, the record digest, the
Ed25519 check and the JSON codec are arbitrary functions: nothing is assumed of the payload hash
except the shape of a digest, and where it could matter the result names the two byte strings that
would have to collide. What an operation accepts is also stated in the fields of its arguments
(`Records.Plausible`, `Policy.Entitled`, `Manifests.Sound`, `TrustedDevices.Wholesome` and their like
appear in no operation). Lemmas switch automatic induction off, so each proof is the one written.

## Results that differ from what the code or its documentation suggests

- Receipt-driven compaction with two different required peers never removes anything: the only
  writer of receipts signs them for the record's origin, and the digest covers the origin
  (`Resurrection.TwoRequiredPeersBlockCompaction`; `Resurrection.RemovesIff` says exactly when a row
  is removed). The comment in `internal/replication/tombstone_compaction.go:96-99` expects removal
  after every required peer has observed the tombstone.
- The replay guard raises its mark before policy is asked, so a refused request shuts out an
  authorised one of the same or a lower revision (`ReplayTransparency.RefusedRequestShadows`). The
  stores with and without the guard agree throughout a run exactly when no request is shadowed in
  this way (`GuardTransparentIffNothingShadowed`).
- A guard save that fails while raising a mark deletes the mark, and a compacted record can then
  come back (`Replay.MarksFallOnlyOnFailedRaise`, `Resurrection.ForgottenMarkResurrects`). What the
  guard still knows is exactly `GuardMemory.Remembered`, and an absent record comes back exactly
  when it is not remembered (`GuardMemory.MarksRemember`, `Resurrection.ResurrectsIff`).
- A live record with an empty payload map is accepted, loses its payload in the file
  (`omitempty`), and makes every page of the dataset fail until a record that outranks it lands
  (`RetrievalClosure.EmptyPayloadBlocksRetrieval`).
- Authorizing a device at the zero time writes an entry that makes the whole registry unloadable
  (`TrustRuns.ZeroTimeBreaksRegistry`).
- `RevalidatePeer` does not look at the closed flag: a peer closed by a failed check passes again,
  and a step is run with it, as soon as the registry can be read and shows its device as trusted.
  After a check that said no this takes a new authorization; after one that could not read the
  registry it takes none (`SecurePeers.PassesIff`, `PassesAgainIff`, `ClosedPeerRunsAgain`,
  `UnreadableRegistryClosesPeer`).

## Model

| member | source | states |
|---|---|---|
| Conflict.ResolutionFollowsRank | internal/datasets/conflict.go:18-46 | the comparison cascade is exactly the lexicographic order on (revision, time, tombstone, trimmed origin), in all three outcomes |
| Conflict.ResolutionMirrors | internal/datasets/conflict.go:18-46 | swapping the arguments mirrors the outcome |
| Conflict.KeepsIsTotalPreorder | internal/datasets/conflict.go:18-46 | "is not replaced by" is total and transitive |
| Records.ValidatesIff | internal/datasets/envelope.go:36-56 | validation accepts exactly the records that are plausible in themselves and covered by the capability, with write for a live record and delete for a tombstone |
| Policy.AuthorizedIff | internal/policy/acceptance.go:54-90 | a record is authorised exactly when it is plausible, the first capability negotiated for its dataset covers it, purpose and consent are granted, and the trust decision is about this device and key; the evidence says for whom and why |
| Policy.RefusalNamesFirst | internal/policy/acceptance.go:54-80 | a refusal names the first thing missing in the order negotiation, record, purpose, consent, trust |
| SearchHistory.SearchHistoryStore.AcceptAndPersist | internal/replication/search_history_store.go:35-63 | the new file and the answer, for every authorisation result, conflict outcome and file error |
| Convergence.AcceptIsMerge | internal/replication/search_history_store.go:35-63 | an authorised submission without file error is one rank-ordered merge; any other leaves the file as it was |
| Convergence.StoreChangesIff | internal/replication/search_history_store.go:35-63 | the store changes exactly for an entitled search.history record, with working files, that outranks the present row, and then by exactly that row |
| Convergence.SuccessIsHeld | internal/replication/search_history_store.go:47-62 | a success means that the file holds a row at least as high, whose evidence is the answer |
| Convergence.MaximumWins | internal/replication/search_history_store.go:35-63 | after any run of submissions every landed identifier holds a landed record that no landed record outranks, and there are no other rows |
| Convergence.ReplicasAgree | internal/datasets/conflict.go:18-46 | replicas that landed the same set of records, in any order and with any duplicates, agree on identifiers and ranks |
| Convergence.EnvelopesAgree | internal/datasets/conflict.go:18-46 | they agree on whole envelopes when identifier and rank determine the record |
| Convergence.OrdersAgreeIff | internal/datasets/conflict.go:36-45 | two landed submissions leave the same envelopes in both orders exactly when rank determines the record among them |
| Replay.ReplayGuard.Accept | internal/replication/replay_guard.go:47-65 | marks in memory, marks on disk and verdict for replays, raises, failed saves and in-memory guards |
| Replay.ReplayGuard.Save | internal/replication/replay_guard.go:85-102 | whatever the map order, the written entries load back to exactly the marks |
| Replay.ReplayGuard.Persistent | internal/replication/replay_guard.go:39-83 | a restart restores the marks that the file's entries denote, later entries winning |
| Replay.MarksFallOnlyOnFailedRaise | internal/replication/replay_guard.go:54-62 | marks never fall, exactly except when the save of a raise fails |
| Replay.KeysApart | internal/replication/replay_guard.go:47-50 | marks of different devices, datasets or records never touch each other |
| Replay.LastEntryCounts | internal/replication/replay_guard.go:67-83 | of several saved entries of one key the last one is the mark that loads |
| Receipts.ConvergenceConfirmed | internal/replication/receipts.go:55-74 | true exactly when the record is a tombstone, some peer is required, and each required peer has a receipt for this revision and digest |
| Compaction.ConfirmedIff | internal/replication/receipts.go:55-74 | confirmed exactly for a tombstone that each of at least one required peer has witnessed by a receipt with this record's own fields and hash |
| Receipts.SameTextSameOrigin | internal/replication/receipts.go:42-51 | equal digest texts for one identifier have equal origins and time stamps, although the fields are joined by newlines |
| Receipts.ReceiptOf | internal/replication/receipts.go:28-51 | a receipt carries the record's own fields, the observer and the hash of dataset, identifier, time stamp and origin; there is none without observer, identifier or revision |
| Receipts.ReceiptStore.Append | internal/replication/receipt_store.go:20-47 | the receipts held afterwards and the answer; the written log is ordered and a permutation of the old one plus the receipt, which was not in it |
| Receipts.AppendIff | internal/replication/receipt_store.go:20-47 | when the log takes a receipt and when the answer is a success; a log without two receipts of one observation stays one |
| Receipts.ReceiptStore.ForRecord | internal/replication/receipt_store.go:49-63 | exactly the logged receipts of one record |
| Receipts.BeforeTransitive | internal/replication/receipt_store.go:37-45 | the log's comparison is a transitive order, as sorting needs |
| Receipts.OrderOfLog | internal/replication/receipt_store.go:37-45 | the log is ordered by time, then record, then observer |
| Compaction.CompactTombstonesWithReceipts | internal/replication/tombstone_compaction.go:53-94 | file and answer of one compaction, whatever the map order, including its five error exits |
| Compaction.CompactionIsExact | internal/replication/tombstone_compaction.go:71-93 | a successful compaction removes exactly the tombstones whose age is at least the positive retention and for which each required peer, of at least one, has a receipt of this revision and digest; it keeps every other row and returns how many it removed |
| Compaction.OnlyDueRowsGo | internal/replication/tombstone_compaction.go:53-94 | whatever the files do, a row goes exactly when it is due and all files work, and no other row changes |
| Compaction.CompactionAnswers | internal/replication/tombstone_compaction.go:53-94 | which answer is given: receipts are needed only for a tombstone past retention, a writable file only for one that is due |
| Ingest.Ingestor.Ingest | internal/replication/ingest.go:29-93 | store, marks, saved marks, receipts and answer after signature, guard, policy, store and receipt steps in that order |
| IngestOutcome.IngestSucceedsIff | internal/replication/ingest.go:29-93 | an ingest succeeds exactly under a list of conditions on the request's own fields: verified signature of the origin, revision not covered, entitlement, dataset, files, receipt |
| IngestOutcome.IngestNeedsProof | internal/session/record.go:14-21 | nothing changes and nothing succeeds unless the proof verified to the key of the peer, who is the record's origin |
| IngestOutcome.IngestRefusesInOrder | internal/replication/ingest.go:29-74 | which refusal is given: the first failing step of the pipeline |
| IngestOutcome.RunIsEarned | internal/replication/ingest.go:29-93 | over any run every row, mark and receipt on the node stems from an ingest whose proof verified, rows and receipts also from one that was entitled |
| IngestOutcome.LogHasNoDuplicates | internal/replication/receipt_store.go:28-32 | in any run the log never holds two receipts of one observation |
| ReplicationRuns.IngestMarksBeforeReceipts | internal/replication/ingest.go:36-91 | an ingest adds a receipt only for a key and revision whose mark the guard has just accepted and saved |
| ReplicationRuns.IngestReceipts | internal/replication/ingest.go:82-91 | an ingest removes no receipt, writes only its own, and under a receipt store answers with success only with a receipt for its record in the log |
| GuardMemory.MarksRemember | internal/replication/replay_guard.go:47-83 | over any run of ingests, compactions and restarts, the marks cover a revision exactly when an accepted request of its key carried that revision or a later one and every later loss of the mark by a failed save was followed by a restart before the file was rewritten; the file covers it under the same condition short of the restart |
| GuardMemory.StoredUnlessRemembered | internal/replication/ingest.go:36-82 | in such a run an ingest merges its record exactly when it is signed, authorised and its mark can be saved, and its key and revision are no longer remembered |
| GuardMemory.ReceiptsStem | internal/replication/ingest.go:36-91 | every receipt of the log was written behind an accepted and saved mark of its key at its revision |
| Resurrection.ResurrectsIff | internal/replication/ingest.go:36-82 | an absent record comes back exactly by a signed and authorised ingest of it, by whatever device, whose mark can be saved and whose key and revision are not remembered |
| Resurrection.NoResurrection | internal/replication/tombstone_compaction.go:53-94 | after a compaction removed a tombstone, a required peer's record at or below its revision is rejected and changes nothing, as long as every loss of the peer's mark was healed by a restart in time |
| Resurrection.ObservedIffAcknowledged | internal/replication/receipts.go:28-74 | in any run a peer counts as having observed a row exactly when it is the row's origin and an earlier ingest of this version was answered with success |
| Resurrection.RemovesIff | internal/replication/tombstone_compaction.go:53-94 | in any run a compaction removes a row exactly when its files work, the row is a tombstone past retention, some peer is required and every required peer is the row's origin, and an earlier ingest of this version was answered with success |
| Resurrection.OnlyOriginConfirms | internal/replication/receipts.go:28-74 | hence a removed tombstone had every required peer as its origin device |
| Resurrection.TwoRequiredPeersBlockCompaction | internal/replication/tombstone_compaction.go:71-87 | hence with two different required peers a compaction removes nothing |
| Resurrection.ForgottenMarkResurrects | internal/replication/replay_guard.go:57-62 | with one failed guard save the same device brings back a record its compacted tombstone had replaced |
| Resurrection.OtherDeviceResurrects | internal/replication/replay_guard.go:51-56 | a device that was not required brings a compacted record back without any failure |
| ReplayTransparency.MarksRememberPresented | internal/replication/replay_guard.go:54-57 | a revision is covered by the marks exactly when an earlier presented request carried it or a later one, accepted by policy or not |
| ReplayTransparency.ChangesIffWins | internal/replication/ingest.go:47-82 | a request changes the unguarded store exactly when it is authorised and outranks every earlier authorised request for its record |
| ReplayTransparency.GuardTransparentIffNothingShadowed | internal/replication/ingest.go:36-47 | guarded and unguarded stores agree after every prefix of a run exactly when no authorised request that outranks all earlier authorised ones for its record was preceded by a presented one of its key and at least its revision |
| ReplayTransparency.GuardIsTransparent | internal/replication/ingest.go:36-82 | for authorised requests whose key and revision determine the record, both stores are equal after every request |
| ReplayTransparency.RefusedRequestShadows | internal/replication/ingest.go:36-47 | a signed request that policy refuses keeps an authorised one of no higher revision out of the guarded store |
| Listing.WindowsArePrefixes | internal/replication/retrieval_page.go:68-70 | two windows of the same rows are prefixes of one another, so a page is determined by its rows and its length |
| Listing.RetainKeepsWindow | internal/replication/retrieval_page.go:98-116 | retaining a candidate turns the window of the rows seen so far into the window with that row added or replaced |
| RetrievalPage.CandidateWindow.Search | internal/replication/retrieval_page.go:99-101 | the first slot whose identifier is not below the one searched |
| RetrievalPage.CandidateWindow.Retain | internal/replication/retrieval_page.go:98-116 | the in-place replace, drop, shift and truncate equal insertion into the sorted window cut to its limit |
| RetrievalPage.ScanObject | internal/replication/retrieval_page.go:46-87 | the decoding loop reports the first fault in stream order, and otherwise the window of the latest row of each identifier above the cursor |
| RetrievalPage.FirstFaultDecides | internal/replication/retrieval_page.go:46-73 | the first member that is not a row under its own identifier, plausible and covered, decides the error; without one the end of the object does |
| RetrievalPage.LastRowCounts | internal/replication/retrieval_page.go:46-73 | of a repeated key the last row counts, and only if it is above the cursor |
| RetrievalPage.ValidatedPersistedPage | internal/replication/retrieval_page.go:20-94 | the error for each malformed file, and otherwise filter, sort, take, with a cursor exactly when more rows remain |
| RetrievalWalk.WalkAscends | internal/replication/retrieval_page.go:68-93 | following cursors while the store changes arbitrarily returns strictly ascending identifiers, so none twice |
| RetrievalWalk.WalkMissesNothing | internal/replication/retrieval_page.go:68-93 | a record present at every page of the walk is returned |
| RetrievalWalk.WalkOfUnchangedStore | internal/replication/retrieval_page.go:89-93 | every complete walk of an unchanged store of n rows takes max(1, ceil(n / limit)) pages and returns all rows in order |
| RetrievalWalk.WalkEnds | internal/replication/retrieval_page.go:89-93 | on an unchanged store a complete walk exists from every cursor |
| RetrievalWalk.FileIsWalked | internal/replication/retrieval_page.go:46-93 | for every store file both hold of the walk from the empty cursor, repeated keys included |
| RetrievalClosure.LandedValidatesIff | internal/datasets/envelope.go:36-56 | an accepted record passes the retrieval check after its JSON round trip exactly when its schema is the reader's and it is a tombstone or its payload is not empty |
| RetrievalClosure.RowsStem | internal/replication/search_history_store.go:58-62 | after any run of submissions and compactions every row is a landed submission as it reads back |
| RetrievalClosure.RetrievalServesIffAllServable | internal/app/retrieval.go:69-74 | retrieval of a reachable store succeeds exactly when every row is servable |
| RetrievalClosure.ServableSubmissionsServe | internal/app/retrieval.go:69-74 | runs whose landed submissions are all servable never build a store that retrieval refuses |
| RetrievalClosure.LiveRowStays | internal/replication/search_history_store.go:47-62 | a live row survives any submissions and compactions until a record that outranks it lands |
| RetrievalClosure.EmptyPayloadBlocksRetrieval | internal/datasets/envelope.go:22-52 | once a live record with an empty payload map is stored, every scan fails until a record that outranks it lands |
| RetrievalClosure.EmptyPayloadStrikesAtOnce | internal/datasets/envelope.go:22-52 | from any store without the record, one such submission makes the very next scan fail |
| RetrievalClosure.PagesShowTheStore | internal/app/retrieval.go:123-137 | pages of a reachable store are drawn from exactly its rows, and every cursor returned is short enough to be accepted |
| Streams.ByteReader.ReadFull | internal/transfer/manifest.go:44-77 | reading a buffer full depends only on the stream's data and end, not on how reads split it |
| Streams.ByteWriter.WriteAll | internal/transport/binary_frame.go:57-71 | everything written in order or a prefix is; it gives up at the first failed or empty write, and a writer that always makes progress succeeds |
| Gates.GatedReader.Read | internal/app/payload_transfer.go:73-78 | a failed check reads nothing, ends the stream and leaves the peer closed; a passed one is followed by one read of the source |
| Gates.GatedReader.ReadFull | internal/transport/payload_transfer.go:60-62 | checks and reads go in lockstep, the last check alone may have failed and then nothing is touched any more; without a failed check the result depends only on data and end |
| Gates.GatedWriter.Write | internal/app/payload_transfer.go:86-91 | a failed check writes nothing and leaves the peer closed; a passed one is followed by one write to the destination |
| Gates.GatedWriter.WriteAll | internal/transport/payload_transfer.go:203-217 | checks and writes go in lockstep in the same sense; everything is written in order or a prefix is |
| Frames.WriteFrame | internal/transport/binary_frame.go:12-29 | success writes header and payload; failure leaves a prefix; an empty or oversized payload writes nothing |
| Frames.ReadFrame | internal/transport/binary_frame.go:34-55 | the payload, the error and the bytes consumed, for every input and bound |
| Frames.ParseIff | internal/transport/binary_frame.go:34-55 | a frame is read exactly when the stream begins with the header and payload of a length within both bounds |
| Frames.HeaderIsBigEndian | internal/transport/binary_frame.go:16-20 | the header is the length in base 256, most significant digit first, and no other four bytes denote it |
| Frames.FramesRoundTrip | internal/transport/binary_frame.go:12-55 | any list of sendable payloads is read back in full and exactly its bytes are consumed |
| Frames.TruncationIsRefused | internal/transport/binary_frame.go:43-54 | no proper prefix of an encoded list reads as the list |
| Frames.OversizeStopsAfterHeader | internal/transport/binary_frame.go:47-50 | a declared size over the bound fails with four bytes consumed |
| Frames.RefusalLeaves | internal/transport/binary_frame.go:34-55 | a refusal costs nothing with a bad bound, the header with a bad size, and everything with too few bytes |
| Manifests.Validate | internal/transfer/manifest.go:82-140 | accepts exactly the manifests whose chunks are forced onto consecutive stretches and whose digests are well formed, with a running total in wrapping 64-bit arithmetic |
| Manifests.ValidIff | internal/transfer/manifest.go:82-140 | the accepted manifests field by field: version, leaf name, full chunks but the last, a size they add up to, and hexadecimal digests |
| Manifests.LayoutIsForced | internal/transfer/manifest.go:112-139 | chunk i of an accepted manifest covers [i*chunkSize, min((i+1)*chunkSize, size)), is not empty, and the sizes add up to the declared size |
| Manifests.BuildManifest | internal/transfer/manifest.go:27-78 | succeeds exactly for valid names and chunk sizes, a readable payload and a length of at most 63 bits, and then returns the payload's manifest, however the reader splits |
| Manifests.ManifestOfPayload | internal/transfer/manifest.go:27-78 | a built manifest has the payload's size and digest and one chunk per stretch |
| Manifests.BuiltValidIff | internal/transfer/manifest.go:55-73 | a built manifest is valid exactly when the length fits 64 signed bits |
| Manifests.VerifyChunkIff | internal/transfer/manifest.go:144-161 | a chunk is accepted exactly when its index is not negative, its size is at most 1 MiB, and size and digest are those of the data |
| Manifests.VerifyPayload | internal/transfer/manifest.go:166-199 | accepts exactly a valid manifest with a stream that ends cleanly and matches its size and every digest; truncation, corruption and trailing bytes are refused |
| Manifests.MatchesIff | internal/transfer/manifest.go:166-199 | matching is having the size, the whole digest, and the digest of every stretch [i*chunkSize, (i+1)*chunkSize) |
| Manifests.ManifestRoundTrip | internal/transfer/manifest.go:27-199 | a payload matches its own manifest, and another one does so only by colliding with it as a whole and in some chunk |
| PayloadProtocol.RecordsAreBound | internal/transfer/protocol.go:120-178 | the only completion and receipt accepted for an offer are the ones built from it |
| PayloadProtocol.OfferValidIff | internal/transfer/protocol.go:89-105 | an offer is valid exactly with this version, 32 hexadecimal digits, a file or text kind and a valid manifest |
| PayloadProtocol.DecisionsAreBound | internal/transfer/protocol.go:107-118 | the decisions accepted for an offer are the acceptance and the rejection that name it |
| PayloadTransfer.ReceiveTransferPayload | internal/transport/payload_transfer.go:105-184 | the call runs the receiver machine over its input; on failure the peer is closed, what was staged and sent is a prefix of that run, the whole acceptance went out before anything was staged and nothing behind it before everything was; approval and writes sit behind their own checks, and after a failed one nothing is staged or sent |
| PayloadTransfer.ReceiveOffer | internal/transport/payload_transfer.go:116-149 | offer, validation, the check, authorisation and decision in that order, with their fail-closed exits |
| PayloadTransfer.Approve | internal/app/payload_transfer.go:51-56 | the application is asked only behind a passed check; a failed one closes the peer instead |
| PayloadTransfer.ReceiveChunks | internal/transport/payload_transfer.go:151-166 | chunks are staged in order, each only after it verified and behind its checks |
| PayloadTransfer.StageChunk | internal/transport/payload_transfer.go:163-165 | a verified chunk is staged behind its checks, or the call fails with a prefix of it staged |
| PayloadTransfer.ReceiveCompletion | internal/transport/payload_transfer.go:168-183 | completion, whole digest and receipt, with their fail-closed exits |
| PayloadTransfer.FailReceive | internal/transport/payload_transfer.go:196-201 | a failure closes the peer and leaves prefixes of the machine's run |
| PayloadSending.SendTransferPayload | internal/transport/payload_transfer.go:33-98 | the call runs the sender machine over its source and input; an invalid offer costs nothing, a failure closes the peer and leaves a prefix of the run sent; the source is read only after an acceptance of this very transfer; every source read sits behind its own check, and after a failed one nothing is read or sent |
| PayloadSending.SendChunks | internal/transport/payload_transfer.go:58-83 | chunks go out only after they verify, and the completion only behind a clean source end and the whole digest |
| StagingSafety.StagingIsVerified | internal/transport/payload_transfer.go:142-183 | for every input, bytes are staged only behind a sent acceptance of a valid approved offer, they are whole verified chunks in order, and a receipt means that they match the manifest |
| StagingSafety.AcceptedRunIsVerified | internal/transport/payload_transfer.go:151-183 | the same from any point of an accepted transfer |
| StagingSafety.StagedChunksArePayload | internal/transfer/manifest.go:144-161 | under a payload's own manifest the staged chunks are a prefix of it, and all of it at the end, or two different chunks collide |
| PayloadTranscript.ReceiptIff | internal/transport/payload_transfer.go:105-184 | whatever bytes arrive, a receive ends with a receipt exactly when they are a valid allowed offer, its chunks by size and digest, and the one completion of this transfer; it ends with a denial exactly for a valid denied offer |
| PayloadTranscript.SentIff | internal/transport/payload_transfer.go:33-98 | whatever bytes arrive, a send ends with the receipt exactly when the first frame accepts this very transfer, the source is the manifest's payload and nothing else, and the next frame is this transfer's receipt; rejected exactly when the first frame rejects it; and without an acceptance only the offer is sent and nothing of the source taken |
| PayloadTranscript.OversizedChunkStaysUnread | internal/transport/payload_transfer.go:153-156 | a chunk frame declaring more than its chunk is refused behind its header |
| PayloadSession.Reachable | internal/transport/payload_transfer.go:33-184 | the invariant of every schedule with failures between frames: channels hold the next frames of the script and staging is a prefix of the source |
| PayloadOutcome.Agreement | internal/transport/payload_transfer.go:33-184 | under every schedule a receipt at the sender means its source is staged at the receiver, and a receipt at the receiver means its staging is the source |
| PayloadAgreement.BytesAgree | internal/transport/payload_transfer.go:33-184 | agreement over bytes: it holds for whatever prefix of each side's bytes reaches the other, cut anywhere; a rejection at the sender was the receiver's; and a side that ends well has read every byte the other one says |
| PayloadAgreement.CallsAgree | internal/transport/payload_transfer.go:33-184 | the same of two actual calls, guarded or not, with broken streams and failed checks on either side: a receipt on either side means that exactly the source is already staged, a rejection that nothing is, and a call that did not fail leaves none of the other's bytes unread |
| PayloadOutcome.ChannelsEndEmpty | internal/transport/payload_transfer.go:54-56 | two sides that finish without closing report the same outcome and leave both channels empty |
| PayloadOutcome.SeriesRunsLikeFresh | internal/transport/payload_transfer.go:33-184 | after any number of transfers finished without closing, accepted or rejected, the next one runs on the same connection exactly as on a fresh one |
| PayloadOutcome.SomeoneCanMove | internal/transport/payload_transfer.go:44-97 | without failures and over channels of any capacity of at least one frame, an unfinished transfer always has an enabled move |
| PayloadOutcome.EveryScheduleSettles | internal/transport/payload_transfer.go:44-183 | at most 2n+8 effective moves for n chunks, and then both sides have succeeded with the source staged, or both have recorded the rejection |
| PayloadBytes.ConversationsMeet | internal/transport/payload_transfer.go:33-184 | accepted: each side fed with all bytes of the other ends with its receipt and leaves none unread |
| PayloadBytes.RejectionMeets | internal/transport/payload_transfer.go:54-56 | rejected: each side fed with all bytes of the other records the rejection, with source untouched and nothing staged, and leaves none unread |
| TrustedDevices.TrustedDeviceStore.Authorize | internal/identity/trusted_device_store.go:54-88 | registry and answer for new, active, mismatching and revoked entries and every file error |
| TrustedDevices.AuthorizeEffect | internal/identity/trusted_device_store.go:54-88 | a pair without an entry gets one, a revoked entry is replaced, an active one is confirmed for the same key, and nothing else changes |
| TrustedDevices.TrustedDeviceStore.Revoke | internal/identity/trusted_device_store.go:137-163 | registry and answer for unknown, revoked and active entries and every file error |
| TrustedDevices.RevokeEffect | internal/identity/trusted_device_store.go:137-163 | an active entry gets the time of the call, a revoked one keeps its own, and nothing else changes |
| TrustedDevices.TrustedDeviceStore.Resolve | internal/identity/trusted_device_store.go:111-135 | the active device of a pair, or why there is none |
| TrustedDevices.ResolveIff | internal/identity/trusted_device_store.go:111-135 | the answer is exactly the pair's first entry if it is active |
| TrustedDevices.TrustedDeviceStore.IsTrusted | internal/identity/trusted_device_store.go:90-106 | the answer for a pair and a fingerprint |
| TrustedDevices.TrustIff | internal/identity/trusted_device_store.go:90-106 | trusted exactly when the arguments are well formed, the registry is readable, every entry is wholesome, and the pair's first entry is active with this fingerprint; the two errors likewise |
| TrustedDevices.TrustedDeviceStore.Load | internal/identity/trusted_device_store.go:194-222 | the registry only if every entry is valid |
| TrustedDevices.TrustedIffResolved | internal/identity/trusted_device_store.go:90-135 | IsTrusted says yes exactly for the fingerprint of the key Resolve returns |
| TrustRuns.PairsStayUnique | internal/identity/trusted_device_store.go:64-83 | in every run each account and device has at most one entry |
| TrustRuns.OthersUntouched | internal/identity/trusted_device_store.go:64-163 | an operation never changes another pair's entry |
| TrustRuns.KeyChangesOnlyAcrossRevoke | internal/identity/trusted_device_store.go:64-163 | between two moments with different active keys of a pair, that pair was revoked |
| TrustRuns.ActiveIffGranted | internal/identity/trusted_device_store.go:54-163 | a pair is active with a key of some fingerprint exactly when an authorization with it was answered with success and no revocation of the pair has been since |
| TrustRuns.ZeroTimeBreaksRegistry | internal/identity/trusted_device_store.go:54-88 | after authorising a genuine pairing the registry still loads exactly when the time was not zero or a guard kept the call from writing: a missing argument, a file error, or an active entry of the pair |
| Peers.PeerConn.BindAuthenticatedKeyFingerprint | internal/transport/peer.go:74-92 | the binding is write-once and needs an open authenticated peer |
| SecurePeers.RevalidatePeer | internal/app/secure_peer_factory.go:108-134 | passes exactly while the account, device and bound fingerprint are trusted; any other answer names its reason and leaves the peer closed |
| SecurePeers.CheckIff | internal/app/secure_peer_factory.go:108-134 | what a checkpoint asks in raw fields: a readable registry of wholesome entries whose first entry for the account and device is active with the bound key; and when a missing factory or a faulty registry is the reason given |
| SecurePeers.RunOperationSequenceWithCurrentTrust | internal/app/secure_peer_factory.go:144-178 | every step that ran was behind its own passed check against the registry of its moment; the run stops at the first failed step or failed check; the peer is closed afterwards exactly if it was, a step closed it, or a check failed |
| SecurePeers.TrustLostByRevocation | internal/app/secure_peer_factory.go:124-132 | between a passed and a refused check the very pair was revoked |
| SecurePeers.PassesIff | internal/app/secure_peer_factory.go:108-134 | a check passes exactly when the registry can be read and loads and the pair was authorized with the bound key and not revoked since, whatever earlier checks said |
| SecurePeers.PassesAgainIff | internal/app/secure_peer_factory.go:108-134 | after a check that said no, the authorization must have come in between |
| SecurePeers.UnloadableStays | internal/identity/trusted_device_store.go:194-222 | a registry that does not load is never changed again, so after such a failure no check passes any more |
| SecurePeers.ClosedPeerRunsAgain | internal/app/secure_peer_factory.go:108-178 | after Authorize, check, Revoke, failed check and Authorize of the same pairing the check passes on the closed peer and the step is run |
| SecurePeers.UnreadableRegistryClosesPeer | internal/app/secure_peer_factory.go:124-178 | a check that cannot read the registry closes a trusted peer, and the next step runs with the closed peer without any new authorization |
| GuardedCalls.SendTransferPayload | internal/app/payload_transfer.go:19-34 | checks at entry, directly before every single source read, and before a receipt is handed out; the answer is decided by the first check, the transport call and the last check; after any failed check source and connection stay as they were, the peer is closed and no receipt is returned; while all hold it is the unguarded call |
| GuardedCalls.ReceiveTransferPayload | internal/app/payload_transfer.go:41-65 | the same with checks at entry, before the approval, directly before every single write, and before the receipt is handed out |
| Publication.FillAndLink | internal/app/payload_publication.go:134-152 | the temporary file's content and the link under the final name, for every failure on the way |
| Publication.Publish | internal/app/payload_publication.go:88-170 | the directory afterwards, the exact success condition, and what a failed clean-up leaves behind |
| Publication.CopyVerified | internal/app/payload_publication.go:137-139 | the bytes copied are the bytes verified |
| Publication.FilesAreForever | internal/app/payload_publication.go:147-152 | over any run of publications a file once present keeps its bytes |
| Publication.NewFilesAreVerified | internal/app/payload_publication.go:137-169 | every new file of a run was published by one of its calls and matches that call's manifest, or is a temporary file that could not be removed |
| Publication.OneFilePerSuccess | internal/app/payload_publication.go:121-169 | the directory grows by exactly one file per success and one per failed clean-up |
| Publication.PublishedIsPayload | internal/transfer/manifest.go:166-199 | a file published under a payload's manifest is that payload unless the hash collides |
| EndToEnd.PublishedFileIsSource | internal/app/payload_publication.go:79-87 | whatever was lost, cut off or failed in between, a received and then published file is the sender's source |

## Left out

- TLS admission, certificates and the connection itself: an authenticated FIFO stream with a fixed device is given.
- Ed25519, SHA-256, base64 and JSON text: arbitrary functions, with the `omitempty` effect on payloads kept.
- HTTP routing, header parsing and logging; of the retrieval handler only the validation capability and the cursor length bound are kept.
- The bookmark and browser stores: the same code under other dataset names, so an ingestor here has the search.history store or none, and other datasets are unsupported.
- `CompactTombstones` without receipts: the same loop with a caller-supplied flag in place of the receipts.
- `Records`: the sorted listing is stated by `Listing.IsWindow` and needs no second method.
- File permissions, temporary file names, fsync, path cleaning and symbolic links: a directory is a map from leaf names to bytes, and a save either replaces a file or leaves it.
- The wall clock defaults for a zero `now`, and the choice of random transfer identifiers: both are inputs.
- Time arithmetic does not saturate, and a time is compared as one integer.
- Concurrent calls on one store: each operation holds its mutex for its whole body, so a run is a sequence of operations.
- RetrievalPage.CandidateWindow.Retain: does not model the reallocation by `append`; the spare slot stands for it.
- Receipts.ReceiptStore.Append: the order among receipts equal in time, record and observer is one of those an unstable sort may give.
- PayloadSession.Reachable: a failure is a move between frames, because its channels carry whole frames; writes that break off inside a frame are covered by `PayloadAgreement` over bytes.
- GuardedCalls.SendTransferPayload: the reader's own errors are the `Broken` end of the source, and a registry is changed by others only between checks.
- GuardedCalls.ReceiveTransferPayload: nobody else closes the peer while a call runs.
- Nil readers, writers, callbacks and stores passed as arguments: the types exclude them, except the factory's own trust store.
- SecurePeers.RunOperationSequenceWithCurrentTrust: a callback is given by how it ends and whether it closes the peer.
- Streams.ByteReader.ReadFull: a reader may pause with empty reads only finitely often.
