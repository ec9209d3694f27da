# RedactWall: verified models of its hard parts

This project models, in Dafny 4.11, the parts of RedactWall whose correctness is a property of whole runs,
and proves those properties. It stands beside the JavaScript sources and cites them by path and line.

| area | source | files |
|---|---|---|
| Canonical JSON | server/audit-integrity.js | `CanonicalJson.dfy`, `JsonReader.dfy`, `Decimal.dfy` |
| Hash-chained audit log, its checkpoints, its two verifiers | server/audit-integrity.js, scripts/backup-store.js | `AuditIntegrity.dfy`, `AuditTheorems.dfy` |
| RESP replies and Redis commands | scripts/ai-gateway-rate-limiter.js | `Bytes.dfy`, `Resp.dfy`, `RespTheorems.dfy` |
| ICAP messages and chunked bodies | scripts/squid-icap-bridge.js | `Bytes.dfy`, `Icap.dfy`, `IcapTheorems.dfy` |
| Fixed-window rate limiters | gateway/server.js, scripts/ai-llm-gateway.js, scripts/ai-gateway-rate-limiter.js | `RateLimiter.dfy` |
| Guarded Postgres restore | scripts/backup-store.js | `PgCluster.dfy`, `PgRestore.dfy` |
| Transactional publication of private artifacts | scripts/backup-store.js | `PrivateFiles.dfy`, `PublicationLedger.dfy`, `Publication.dfy` |
| Reversible tokenization of a request body | gateway/server.js, gateway/canonical.js, detection-engine/detect.js | `Tokenizer.dfy`, `BodyTokenization.dfy` |
| Token store shared by processes | gateway/tokens.js | `TokenStore.dfy` |
| Data-key rotation | scripts/rotate-data-key.js, server/crypto.js | `Rotation.dfy` |

`Wrappers.dfy` holds the option type they share. `dafny verify dfyconfig.toml` checks the whole project.

## How to read it

Code that updates state is a class with the source's fields, or a method with the source's loop, proved
against a specification function; what the source promises is then proved about that function, or kept in a
ghost record of every state of the run. Steps that may fail take a nondeterministic outcome; a step that may
take effect and still report failure is modelled that way. Other processes and other database clients act
between the steps.

- **Hashes and MACs** are arbitrary functions. Where an argument needs SHA-256 or HMAC to be injective, the theorem
  says instead "or these two texts collide", so nothing is assumed of them.
- **JSON** numbers carry their shortest decimal text, or are infinite; strings are sequences of Unicode scalar
  values; objects keep their members in order and are compared as maps by `CanonicalJson.Same`, and by
  `CanonicalJson.Equiv` with infinities read as `null`.
- **Bytes** on the wire are characters, one each.
- **Files** are names standing for identities; an identity stands for one file or directory and the content it
  came with. A rollback directory is known by its own identity, so its slots move with it. A rename replaces what
  `renameSync` replaces: a file by a file, a directory by a directory with nothing in it. Other processes change
  public names and put entries into directories, also between a check and the rename after it. A ghost record
  keeps what the run deleted for good, and which of that others had put in its way.
- **The cluster** is a map from name to oid, owner, connection flag, connection limit, template flag and
  sessions. Other clients may do anything to other databases, take free names, connect and leave; the role that owns the
  restored database has no other members, so nobody else alters, renames or drops it.
- **Detector findings** are arbitrary non-empty, non-overlapping spans whose value is the spanned text and
  whose type has no brackets.
- **AES-GCM** is an ideal box: a token opens under the key that sealed it and under no other.

## What the models found

- `createStaging` can create the staging database and then fail to read the catalog with one of the SQLSTATEs
  that `pgCreateOutcomeIsConclusive` takes as proof that nothing was created. The run then ends with the bare
  error, and the staging database is neither dropped nor named. `PgRestore.Restore.Run` proves that this is the
  only way: after a bare failure the database is gone exactly when that has not happened. `PgRestore.OrphanExample`
  is a run.
- `stageExistingArtifacts` renames an original before it checks and records it. If the check after the rename
  throws, the recovery removes the rollback directory with that original inside.
  `Publication.Publisher.Publish` proves that a rolled-back run leaves every public name as it found it exactly
  when that has not happened; `Publication.UnrecordedExample` is a run.
- In the clearing of a failed publication `pathEntryExists` can throw past the report. Every original is then in
  its rollback directory, under an error that names none of them. `Publication.Publisher.RollBack` proves that
  this outcome, `Escaped`, happens exactly when such a check threw, and that every other report leads to each
  recorded original; `Publication.EscapedExample` is a run. The same call in the filter of the warning makes a run
  throw after it has committed, `ThrewAfterCommit` (`Publication.ThrewAfterCommitExample`).
- Between the check that a target is free and the `renameSync` that puts an original back, another process can
  create a file there: it is replaced and lost, and nothing reports it (`Publication.Publisher.Overwrite`, for
  every such state). Renaming a staged directory over a foreign empty one, and removing a published directory
  into which others put files (`Publication.Publisher.Sweep`), lose something too. A file that takes the place
  of an original between the look at it and the rename that sets it aside is lost too: the check that follows
  fails, nobody records it, and the recovery removes it (`Publication.Publisher.SwapIn`,
  `Publication.SwapExample`). `PublicationLedger.DeletesOnlyOurs` proves that these are the only ways in which a
  run loses anything but its own things, the originals it recorded and then committed over, and an unrecorded
  original.
- `loadStore` keys its cache by `none` both for a missing file and for a failed `lstat`. Two failed stats around
  a revocation let a process answer with a revoked token (`TokenStore.StaleExample`); `TokenStore.RevocationExactly`
  says when, and a resolution whose own stat worked is never affected. A failed read is cached as the empty store,
  so a valid token stays denied until the file changes (`TokenStore.DeniedExample`, `TokenStore.DeniedExactly`).
- `canonical` prints a number too large for a double, which `JSON.parse` reads as an infinity, as `null`. So `null` and
  `1e400` can be exchanged in the log or in a row and no hash changes (`CanonicalJson.InfiniteExample`,
  `AuditTheorems.EntryExchanged`, `AuditTheorems.RowExchanged`). `CanonicalJson.CanonicalExact` proves that nothing
  else prints alike.
- Both audit verifiers throw, rather than report a broken chain, at an entry whose JSON text is `null`; at one
  whose `mac` was wrapped in an array, since `sameHex` tests the text of a value and then decodes the value
  itself; and at one whose `mac` is an object with a member `toString`, which has no text. The hash of an entry
  does not cover its `mac`, so the chain stays intact (`AuditIntegrity.WrappedMacThrows`). They also throw at a
  bound `queryId` that the database driver does not bind, such as `true` under SQLite. The contracts of
  `AuditIntegrity.VerifyAuditChainForDatabase` and `AuditIntegrity.VerifyPgSnapshotIntegrity` say exactly when.
- The window limiters admit at most `2 * limit - 1` requests in any interval of one window, one less than twice
  the limit, and that number is reached (`RateLimiter.BoundIsReached`).
- Putting tokens back fails when a token of the map shows among the plain characters of the tokenized text
  (`Tokenizer.CollisionExample`), or comes to show there once another is put back (`Tokenizer.CrossingExample`).
  `Tokenizer.RestoredExactly` proves that nothing else makes it fail.

The rows marked as main results are the theorems the others lead up to.

## Model

| member | source | states |
|---|---|---|
| CanonicalJson.CanonicalExact | server/audit-integrity.js:24-30 | **Main result.** Two well-formed values print the same exactly when they are equal as values with objects read as maps and infinities as `null` |
| CanonicalJson.PinnedExactly | server/audit-integrity.js:24-30 | **Main result.** The print of a value is shared by no different value exactly when it holds no `null` and no infinity |
| CanonicalJson.InfiniteExample | server/audit-integrity.js:24-30 | `{"x": null}` and `{"x": 1e400}` are different values that print the same |
| CanonicalJson.EquivPrintsSame | server/audit-integrity.js:25-30 | neither key order nor the difference between `null` and an infinity ever shows in the output |
| CanonicalJson.Delimits | server/audit-integrity.js:26-29 | the printed form of a value is self-delimiting: if two printed values followed by any stopping text agree, the values are equal as maps with infinities as `null`, and so is what follows |
| CanonicalJson.SortedKeysAgree | server/audit-integrity.js:28 | sorting the keys of two objects with the same keys gives the same sequence |
| JsonReader.CanonicalReads | server/audit-integrity.js:24-30 | **Main result.** A JSON reader written apart from the printer reads the print of a value to its end, and what it reads is that value, as maps with infinities as `null`, with the keys of every object in order |
| JsonReader.ValueReads | server/audit-integrity.js:24-30 | the same wherever the print stands before a stopping text |
| AuditIntegrity.BatchQueryContentHashes | server/audit-integrity.js:80-89 | for any id list and chunk size the bulk lookup holds exactly the per-id content hashes, and throws exactly when the driver does not bind some chunk of the ids |
| AuditIntegrity.CollectLatest | server/audit-integrity.js:128-129 | the map holds exactly the bound ids, each with the content hash of its latest entry, and its keys come in the order first bound, arrays and objects each as a key of its own |
| AuditIntegrity.VerifyLinks | server/audit-integrity.js:105-121 | the loop passes exactly when every entry links, hashes and authenticates; it throws exactly when, with nothing wrong before it, it comes to a `null` entry or, with a key, to one that links and whose mac `sameHex` cannot compare; otherwise it names the first fault |
| AuditIntegrity.WrappedMacThrows | server/audit-integrity.js:19-22 | in every linked log with a key, wrapping the mac of any authenticated entry in an array makes the loop throw |
| AuditIntegrity.VerifyEvidence | server/audit-integrity.js:128-149 | passes only when every row is anchored and every bound row hashes to its latest entry; otherwise it names an unanchored row, or says of the first wrong id, in the order first bound, whether its row is missing or changed; it throws exactly when every row is anchored and the driver does not bind some chunk of the ids |
| AuditIntegrity.VerifyCheckpoint | server/audit-integrity.js:94-104 | passes exactly when the checkpoint authenticates and the log is at least as long, or bootstrap is allowed |
| AuditIntegrity.VerifyAuditChainForDatabase | server/audit-integrity.js:91-155 | **Main result.** Accepts exactly the accepted stores, gives a reason that really holds, hands on the checkpoint of the whole log, and throws exactly when its loop comes to an entry it cannot handle before any fault, when the driver does not bind the ids it then looks up, or when the checkpoint to hand on has no valid fields |
| AuditIntegrity.PgEntryCheckAgrees | scripts/backup-store.js:1593-1603 | the entry check of the second verifier, written its own way, throws at the same entries as the first verifier's under an exact checkpoint, and faults the same entries with the same reasons |
| AuditIntegrity.VerifySequencedLinks | scripts/backup-store.js:1586-1606 | with its own entry check, passes exactly when the chain links and the stored sequence strictly increases, throws exactly when it comes first to an entry it cannot handle, and otherwise names the first fault |
| AuditIntegrity.VerifyPgHead | scripts/backup-store.js:1607-1611 | passes exactly when the checkpoint's head and sequence are letter for letter those of its last entry |
| AuditIntegrity.VerifyPgEvidence | scripts/backup-store.js:1613-1654 | its own evidence loop decides, throws and names its reason as the first verifier's does |
| AuditIntegrity.VerifyPgSnapshotIntegrity | scripts/backup-store.js:1572-1660 | **Main result.** Throws exactly when its loop comes to an entry it cannot handle before any fault, or the driver does not bind the ids it looks up after everything else has passed; verifies exactly the stores the other verifier accepts with the same checkpoint and whose sequence increases and whose checkpoint matches exactly, and then hands on the same exact checkpoint; gives a reason that really holds |
| AuditIntegrity.SequencedProduces | scripts/backup-store.js:1655-1659 | with an increasing sequence the exact checkpoint can always be made, and both verifiers make the same one |
| AuditTheorems.VerifiersAgree | scripts/backup-store.js:1572-1660 | **Main result.** On a log with increasing sequence and a checkpoint made for it with the matching sequence number the two verifiers accept the same stores; they throw on the same stores, unless nothing is wrong up to the look-up of the bound ids and only one of the two look-ups, parameter by parameter or as one array, can bind these: exactly then one throws and the other does not |
| AuditTheorems.PrefixTamperEvident | server/audit-integrity.js:91-127 | **Main result.** Two logs accepted with one key, each under a checkpoint with the same mac: the checkpoints say the same or their texts collide under the key; then both logs are at least `count` long and agree on their first `count` entries apart from the mac, as maps with infinities as `null`, or two hashed texts collide |
| AuditTheorems.CheckpointPinned | server/audit-integrity.js:46-66 | **Main result.** The mac of a valid checkpoint stands under another exactly when that one has the same count, sequence and head, or the two texts collide under the key |
| AuditTheorems.CheckpointTextPinned | server/audit-integrity.js:46-51 | two checkpoints have one text exactly when they say the same |
| AuditTheorems.EntryPinned | server/audit-integrity.js:39-44 | the mac of an authenticated entry stands under another only if the two print alike in everything but the mac, the recorded hash included, or the two texts collide under the key |
| AuditTheorems.EntryAuthenticated | server/audit-integrity.js:112-119 | in an accepted store every entry beyond the checkpoint is authenticated, and every earlier one that carries a mac |
| AuditTheorems.EntryExchanged | server/audit-integrity.js:91-149 | and no more can be said: in an accepted store any entry may be exchanged for one that differs only in what prints alike, if it keeps its mac and binds the same evidence |
| AuditTheorems.AgreeBackwards | server/audit-integrity.js:105-121 | equal heads carry equality, up to what prints alike, back along the chain, or two hashed texts collide |
| AuditTheorems.CheckpointAdvances | server/audit-integrity.js:150-154 | the new checkpoint never counts fewer entries, and verifying again with it accepts and reproduces it |
| AuditTheorems.NewerCarriesOlder | server/audit-integrity.js:122-127 | a log accepted under the newer checkpoint still carries the older checkpoint's head, or two hashed texts collide |
| AuditTheorems.EvidencePinned | server/audit-integrity.js:136-149 | two accepted stores with the same log hold the same data in every row, as maps with infinities as `null`, or two row texts collide |
| AuditTheorems.RowExchanged | server/audit-integrity.js:128-149 | and no more can be said: the data of any row may be exchanged for data that prints alike |
| AuditTheorems.AnchoredIds | server/audit-integrity.js:128-146 | in an accepted store the row ids are exactly the ids with a latest bound entry |
| AuditTheorems.NewEntryLinks | server/audit-integrity.js:32-44 | an entry made by `authenticatedEntry` links and authenticates exactly when its body brought no hash or mac of its own, or the texts collide |
| AuditTheorems.AppendKeepsAccepted | server/audit-integrity.js:32-37 | writing a row and appending an entry bound to it, both read back as `JSON.stringify` stored them, keeps an accepted store accepted, with one entry more |
| AuditTheorems.EveryHistoryAccepted | server/audit-integrity.js:32-37 | **Main result.** Every history of rows written with entries bound to them leaves a store that verifies against the empty log's checkpoint, with one entry per write |
| AuditTheorems.EvidenceAfterAppend | server/audit-integrity.js:128-149 | every row still matches its latest entry after the append |
| Resp.ParseOne | scripts/ai-gateway-rate-limiter.js:300-337 | one reply is read within the depth and element limits, moving forward and never past the buffer |
| Resp.Reader.TakeLine | scripts/ai-gateway-rate-limiter.js:279-289 | the reader's cursor and counters follow the line specification |
| Resp.Reader.TakeBulk | scripts/ai-gateway-rate-limiter.js:314-326 | the same for a bulk string, with its terminator and limits |
| Resp.Reader.TakeOne | scripts/ai-gateway-rate-limiter.js:300-337 | the recursive reader follows the reply specification, and ends |
| Resp.ParseRespReplies | scripts/ai-gateway-rate-limiter.js:272-342 | the parser computes the reply-list specification on every buffer, errors included |
| RespTheorems.RoundTrip | scripts/ai-gateway-rate-limiter.js:300-337 | **Main result.** The encoding of any reply within the limits is read back, wherever it stands and whatever follows |
| RespTheorems.ResponseParses | scripts/ai-gateway-rate-limiter.js:338-341 | the encoding of n replies parses as complete with their values |
| RespTheorems.ReadsWithin | scripts/ai-gateway-rate-limiter.js:272-337 | whatever is read was meant by a reply within the depth, array, bulk, line and number limits, of as many elements as were counted, which are no more than may be, and in no fewer bytes than it takes |
| RespTheorems.ReadableExactly | scripts/ai-gateway-rate-limiter.js:272-342 | **Main result.** Replies can be read, complete, from some input exactly when some stream within every limit means them |
| RespTheorems.OneStable | scripts/ai-gateway-rate-limiter.js:300-337 | what a prefix decides stays decided when more bytes come |
| RespTheorems.PrefixFree | scripts/ai-gateway-rate-limiter.js:338-341 | no strict prefix of the encoding of n replies parses as complete, and one that ends in CRLF only ever waits for more |
| RespTheorems.Response.OnData | scripts/ai-gateway-rate-limiter.js:373-388 | the data handler keeps the buffering specification, settling at most once |
| RespTheorems.ChunkingInvisible | scripts/ai-gateway-rate-limiter.js:373-388 | **Main result.** However an error-free response is cut into chunks, nothing is settled before its last byte, and then its last reply is |
| RespTheorems.ErrorChunkingInvisible | scripts/ai-gateway-rate-limiter.js:373-388 | **Main result.** However a response with an error reply is cut into chunks, nothing is settled before the last byte of the error line, nothing but that error is ever settled, and it is settled when a CRLF ends what has arrived |
| RespTheorems.EncodeRedisCommand | scripts/ai-gateway-rate-limiter.js:242-249 | the command printer computes the encoding of an array of bulk strings |
| RespTheorems.CommandParses | scripts/ai-gateway-rate-limiter.js:242-249 | a printed command is read back by the same file's parser |
| Icap.ParseHeaderBlock | scripts/squid-icap-bridge.js:213-227 | the header loop computes its specification, rejecting too many or malformed lines |
| Icap.ParseEncapsulated | scripts/squid-icap-bridge.js:229-240 | the section list is read as specified |
| Icap.DecodeFrom | scripts/squid-icap-bridge.js:246-271 | a decoded body ends inside the buffer and is within the limit |
| Icap.DecodeChunked | scripts/squid-icap-bridge.js:246-271 | the decoding loop computes the specification |
| Icap.TryExtractMessage | scripts/squid-icap-bridge.js:296-305 | extraction computes its specification, and an extracted message ends inside the buffer |
| Icap.ExtractEncapsulated | scripts/squid-icap-bridge.js:274-293 | the same for the encapsulated part |
| Icap.Connection.ProcessBuffer | scripts/squid-icap-bridge.js:441-468 | a step of the connection: nothing while busy or dead, one message taken off the buffer, or a rejection |
| Icap.Connection.OnSocketData | scripts/squid-icap-bridge.js:470-477 | data is appended and processed, and overflow kills the connection |
| Icap.Connection.OnHandled | scripts/squid-icap-bridge.js:460-467 | a finished message is answered and the next one taken |
| IcapTheorems.DecidedBodyStands | scripts/squid-icap-bridge.js:246-271 | a `done` or `too_large` answer is never changed by later bytes |
| IcapTheorems.PartialBodyWaits | scripts/squid-icap-bridge.js:251-254 | a strict prefix of a decodable body with short size lines asks for more |
| IcapTheorems.SplitBodyDecodes | scripts/squid-icap-bridge.js:246-271 | any well-formed split of a body into non-empty chunks decodes to the body and the exact end, whatever follows |
| IcapTheorems.ExtractionStands | scripts/squid-icap-bridge.js:296-305 | a decided extraction is never changed by later bytes |
| IcapTheorems.HeadReads | scripts/squid-icap-bridge.js:213-227 | a printed head reads back as the method in upper case, URI, version and header map it was printed from, exactly if it has no more fields than may be |
| IcapTheorems.HeadEnds | scripts/squid-icap-bridge.js:296-303 | and ends where its text does |
| IcapTheorems.AssembledOutcome | scripts/squid-icap-bridge.js:274-305 | **Main result.** A message assembled from a head and what that announces, nothing, a request header alone, or one with any chunked split of a body, is taken as its parts, to its last byte, or refused for the first limit it exceeds or for a preview that does not hold the whole body |
| IcapTheorems.PartialMessageWaits | scripts/squid-icap-bridge.js:296-305 | a strict prefix of a message sent within the limits asks for more: nothing is extracted and nothing refused |
| IcapTheorems.AssembledMessage | scripts/squid-icap-bridge.js:274-293 | a message sent within the limits, with room for its line ends, is taken as meant, to its last byte |
| IcapTheorems.FragmentationInvisible | scripts/squid-icap-bridge.js:441-477 | **Main result.** Under any cut of a stream of messages sent within the limits into socket chunks, interleaved with responses in any way, the connection stays alive with one message in flight, has delivered what was meant in order, and has answered in order |
| IcapTheorems.WholeStreamDelivered | scripts/squid-icap-bridge.js:441-477 | **Main result.** Once the whole stream is in and every taken message handled, exactly what was meant was delivered and answered |
| IcapTheorems.ChunkedBodyRoundTrip | scripts/squid-icap-bridge.js:331-333 | decoding `chunkedBody` gives the body and its exact end |
| IcapTheorems.EncapsulatedReads | scripts/squid-icap-bridge.js:356 | the Encapsulated header that the echo prints, with a body or without, is read back with its offset |
| IcapTheorems.NullBodyReads | scripts/squid-icap-bridge.js:275-278 | a head without an Encapsulated header announces nothing |
| IcapTheorems.PreviewEnds | scripts/squid-icap-bridge.js:258-263 | `0; ieof` ends a preview that holds the whole body, and `0` does not |
| IcapTheorems.EchoRoundTrip | scripts/squid-icap-bridge.js:351-359 | the non-204 echo of a message, with a body or without, extracts to its last byte to the same request header and body |
| IcapTheorems.AnswersExactly | scripts/squid-icap-bridge.js:352-354 | 204 is answered exactly when an entry of the Allow list is 204 |
| RateLimiter.GatewayBuckets.RateLimited | gateway/server.js:173-185 | answers as the plain counter does, whatever was evicted before |
| RateLimiter.GatewayBuckets.EvictExpired | gateway/server.js:179 | eviction removes exactly the expired buckets |
| RateLimiter.MemoryLimiter.Check | scripts/ai-llm-gateway.js:344-357 | the in-memory limiter is the plain counter |
| RateLimiter.SqliteLimiter.Check | scripts/ai-gateway-rate-limiter.js:162-181 | the SQLite limiters answer as the plain counter does, whatever their periodic cleanup deleted |
| RateLimiter.DropCovered | scripts/ai-llm-gateway.js:243-250 | deleting expired rows never changes a later answer |
| RateLimiter.WindowBound | scripts/ai-llm-gateway.js:344-357 | at most `limit` requests of a key are answered `ok` in one window |
| RateLimiter.IntervalBound | scripts/ai-llm-gateway.js:344-357 | **Main result.** At most `2 * limit - 1` requests of a key are answered `ok` in any half-open interval of one window length |
| RateLimiter.BoundIsReached | scripts/ai-llm-gateway.js:344-357 | and a run is answered so that many times |
| RateLimiter.RemainingExact | scripts/ai-gateway-rate-limiter.js:174-181 | of the further requests at this moment the n-th is answered `ok` exactly when n is at most `remaining` |
| RateLimiter.ResetExact | scripts/ai-gateway-rate-limiter.js:174-181 | a later request starts a new count, and passes, exactly from `resetMs` on |
| PgCluster.Cluster.Exec | scripts/backup-store.js:2746-2755 | a command may be refused, take effect, or take effect and report failure, with others acting around it |
| PgRestore.Restore.Preflight | scripts/backup-store.js:2758-2772 | when it succeeds, each of the two names was seen free in a state of the run; undisturbed it succeeds exactly when both are free |
| PgRestore.Restore.CreateStaging | scripts/backup-store.js:2773-2792 | success means the recorded database is under the staging name, frozen; it tells exactly when a created database is misread as not created |
| PgRestore.Restore.OpenGuard | scripts/backup-store.js:2793-2812 | the staging database keeps its identity and place; when it succeeds, the guard is its only session; undisturbed it succeeds |
| PgRestore.Restore.CloseGuardAndAssertNoConnections | scripts/backup-store.js:2816-2821 | success means the guard is closed and the frozen staging database has no session; closing may throw |
| PgRestore.Restore.Rename | scripts/backup-store.js:2822-2842 | success means the same database is under the target name, still frozen |
| PgRestore.Restore.EnableTarget | scripts/backup-store.js:2685-2715 | `Enabled` means connectable under the target name with the recorded identity, `FrozenStill` means not connectable; undisturbed it is `Enabled` |
| PgRestore.Restore.ReconcileRename | scripts/backup-store.js:2846-2852 | its answer is where the database really is |
| PgRestore.Restore.CleanupOwnedStaging | scripts/backup-store.js:2853-2871 | every DROP is issued on exactly the recorded database, frozen and session-free, not under the target name; success means it is gone |
| PgRestore.Restore.HandleFailure | scripts/backup-store.js:3006-3030 | a failed run ends with the database dropped or with an error that names truly where it is |
| PgRestore.Restore.Run | scripts/backup-store.js:3032-3152 | **Main result.** In every recorded state the database is connectable under the target name only after audit verification, guard closure, confirmed rename, publication and cleanup; every DROP is safe; the report is true; after a bare failure the database is gone exactly when its creation was not misread; success means connectable with the recorded oid and owner, and that every step outside the database worked, in order; undisturbed it succeeds and adds exactly that database if both names are free, and otherwise fails and changes nothing |
| PgRestore.OrphanExample | scripts/backup-store.js:3006-3060 | a run of the modelled steps that ends with the bare error while the database it created is still there |
| PublicationLedger.SoundConserves | scripts/backup-store.js:865 | in a sound state every recorded original not yet committed away is in its slot or at its target |
| PublicationLedger.OthersActed | scripts/backup-store.js:843-981 | whatever other processes do to public names and inside directories, the run's ledger stays sound |
| PublicationLedger.Displaced | scripts/backup-store.js:860-863 | the ledger after an original was moved and the check after it failed |
| PublicationLedger.DisplacedAndRecorded | scripts/backup-store.js:860-865 | the ledger after an original was moved and recorded |
| PublicationLedger.Placed | scripts/backup-store.js:884-887 | the ledger after a staged artifact was linked or renamed onto its target, with what that rename replaced accounted for |
| PublicationLedger.Cleared | scripts/backup-store.js:739-763 | the ledger after a published artifact was taken off its target |
| PublicationLedger.CollisionMoved | scripts/backup-store.js:792-806 | something found where an original belongs was put there by another process, and is renamed aside |
| PublicationLedger.PutBack | scripts/backup-store.js:819 | the ledger after an original went back to its target, with what that rename replaced accounted for |
| PublicationLedger.CleanedUp | scripts/backup-store.js:775-790 | removing a rollback directory loses only what is no longer wanted, was never recorded, or was put in its way by others |
| PublicationLedger.AllBack | scripts/backup-store.js:808-841 | with every recorded original back and nothing on the targets, the public names are as before exactly when no original went unrecorded |
| PublicationLedger.CurrentOnTarget | scripts/backup-store.js:910-922 | when the last checks have passed, each target was seen, in its own check, to stand for its staged artifact |
| PublicationLedger.AllInstalled | scripts/backup-store.js:929-981 | after a commit each target stands for its staged artifact, the sidecar names of SQLite targets are free, and no other public name changed |
| PublicationLedger.DeletesOnlyOurs | scripts/backup-store.js:739-884 | only what the run staged or made, what it recorded as originals, once committed, and an unrecorded original of a target are ever deleted, exactly if nothing else stood where a rename replaced something, lay in a directory that was removed, or was set aside without being recorded and then deleted; while nobody interferes this always holds |
| PublicationLedger.OriginalsReported | scripts/backup-store.js:833-838 | if every slot in use lies in a named directory, every recorded original is at its target, was put back and taken by others, or lies where a name leads |
| PublicationLedger.DirectoryNamed | scripts/backup-store.js:775-788 | after the quarantine of one rollback directory whatever is left in a slot is still named, at its place or where it was moved |
| PublicationLedger.InPlaceAside | scripts/backup-store.js:765-773 | taking one artifact off its target leaves the others recognisable |
| Publication.UnrecordedExample | scripts/backup-store.js:860-872 | a run of the modelled steps, reported as rolled back, in which an original that nobody recorded is destroyed: it is gone from its name, and its last name was removed |
| Publication.Publisher.MatchesPublication | scripts/backup-store.js:727-737 | a match means the quarantined name stands for the published identity; without faults a recognisable artifact is matched |
| Publication.Publisher.QuarantineOwned | scripts/backup-store.js:739-763 | only the published identity is ever removed; anything else found there keeps a name; what is retained is where the outcome says; an entry that others put into a removed directory and that has no other name is lost, and on record; without faults a recognisable artifact is removed; it throws exactly when the existence check does |
| Publication.Publisher.MoveAside | scripts/backup-store.js:860-866 | an original reaches its slot and is recorded, or the run keeps track that it was not; something else that stands in its place by then is set aside and never recorded; nothing else public changes |
| Publication.Publisher.SwapIn | scripts/backup-store.js:859-863 | in every state of staging, a file that another process puts in the place of an original after it was looked at is set aside and not recorded |
| Publication.Publisher.RecoverStranger | scripts/backup-store.js:870-873 | and the recovery, reported as rolled back, destroys it |
| Publication.SwapExample | scripts/backup-store.js:858-873 | a run of the modelled steps in which that happens |
| Publication.Publisher.StageTarget | scripts/backup-store.js:847-866 | success leaves the target name free, with at most that one original moved; undisturbed it succeeds if the name is free or taken by what can be set aside |
| Publication.Publisher.StageExisting | scripts/backup-store.js:843-874 | success leaves every target name free and all other names as they were; failure is undone and truly reported, and in full if the recovery's own steps succeed; undisturbed it succeeds if every target name is free or taken by what can be set aside |
| Publication.Publisher.Place | scripts/backup-store.js:880-887 | the artifact is on its target under its staged identity; a link replaces nothing; undisturbed it succeeds for a staged input of the right kind |
| Publication.Publisher.PlaceNow | scripts/backup-store.js:884-887 | renaming a directory into place destroys what stands on the target by then, exactly if that has no other name |
| Publication.Publisher.Settle | scripts/backup-store.js:888-901 | success finalises exactly the artifact just placed; undisturbed it succeeds if no sidecar is in the way |
| Publication.Publisher.PublishStaged | scripts/backup-store.js:876-908 | success publishes every item in order, each final; undisturbed it succeeds if the staged inputs are distinct, of the right kind, and files with one name |
| Publication.Publisher.AssertCurrent | scripts/backup-store.js:910-922 | success means every target was seen, one after the other with others acting in between, to stand for its published identity alone; undisturbed it succeeds |
| Publication.Publisher.PublishAndCheck | scripts/backup-store.js:933-938 | success means that the caller's check passed and that every target was seen on its staged identity after that |
| Publication.Publisher.RemovePublished | scripts/backup-store.js:765-773 | unless something is blocked, no target is occupied by the run any more; it throws exactly when an existence check does |
| Publication.Publisher.Sweep | scripts/backup-store.js:757-773 | in every state in which a published directory stands on its target, a file that another process puts into it is destroyed when the directory is cleared off |
| Publication.SweepExample | scripts/backup-store.js:757-773 | a run of the modelled steps in which that happens |
| Publication.Publisher.QuarantineCollisions | scripts/backup-store.js:792-806 | without interference and faults there is nothing in the way; it throws exactly when an existence check does |
| Publication.Publisher.RestoreOne | scripts/backup-store.js:811-832 | success puts the original back; without interference and faults it succeeds; what it may destroy stood on that target |
| Publication.Publisher.RenameBack | scripts/backup-store.js:819 | the rename destroys what stands on the target by then, exactly if that is another thing with no other name |
| Publication.Publisher.Overwrite | scripts/backup-store.js:812-819 | in every state of a recovery, a file that another process creates between the check and the rename is destroyed, and the rename succeeds |
| Publication.OverwriteExample | scripts/backup-store.js:812-819 | a run of the modelled steps in which that happens |
| Publication.Publisher.CleanupRollbackDirs | scripts/backup-store.js:775-790 | public names stay as they are; unless an existence check throws, the names it returns cover everything left in a rollback slot, and no name means nothing is left |
| Publication.Publisher.RestoreMoved | scripts/backup-store.js:808-841 | success leaves the public names as they were exactly when no original went unrecorded; an incomplete recovery names every directory that holds something; it escapes exactly when an existence check of the clean-up throws |
| Publication.Publisher.RollBack | scripts/backup-store.js:939-966 | **Main result.** A run reported as rolled back is rolled back; an incomplete one names a place for every recorded original not at its target; the report is replaced by a bare error exactly when an existence check threw while clearing (then every original is in a slot, unnamed) or cleaning up (then every original is back); if the steps succeed and nobody interferes, it is reported as rolled back |
| Publication.EscapedExample | scripts/backup-store.js:939-948 | a run of the modelled steps in which the original stays in its slot and the error names nothing |
| Publication.Publisher.Preflight | scripts/backup-store.js:930-931 | success means all target and sidecar names are distinct and, without force, free; without faults it succeeds exactly then |
| Publication.Publisher.Commit | scripts/backup-store.js:967-980 | the installed artifacts survive the clean-up, whether or not it succeeds; it throws exactly when an existence check for its warning does; otherwise, unless an existence check of the clean-up threw, the warning names every directory that holds something; without faults there is no warning |
| Publication.ThrewAfterCommitExample | scripts/backup-store.js:967-980 | a run of the modelled steps that throws although it has committed |
| Publication.Publisher.Publish | scripts/backup-store.js:929-981 | **Main result.** Every state of the run keeps its recorded originals; what it deletes is its own exactly if only its own was ever in the way of a replacing rename or a removal, or was set aside unrecorded and deleted, and alone it deletes nothing else; a refused run changes nothing; a committed run passed the caller's check and saw every target under its staged identity after it, whoever interfered, and without interference installed everything; it throws after the commit exactly when an existence check for the warning does; any other run is undone with a true report, and left everything as before exactly when no original went unrecorded; with working recovery steps and no interference the run commits, refuses or rolls back; without faults it refuses exactly when names clash or, without force, are taken; if nothing fails, nobody interferes, the check passes, the staged inputs are distinct, of the right kind and files with one name, and every target name is free or, with force, taken by what can be set aside, it commits without a warning and installs everything |
| Tokenizer.SortedStacked | gateway/server.js:44 | sorting non-overlapping findings by start from the last puts each before the one to its left, and loses none |
| Tokenizer.Spliced | gateway/server.js:45 | one splice replaces exactly one finding, leaving the text to its left and what was done to its right |
| Tokenizer.WovenRedacts | gateway/server.js:42-47 | in whatever order the findings are reported, each stands in the tokenized text, in its place, as the token of its value; no other token is put in; and no character of a found span is left |
| Tokenizer.WovenOriginal | gateway/server.js:42-47 | with every token read as its value the tokenized text is the original |
| Tokenizer.TokenInjective | gateway/server.js:34-35 | a token's text determines its type and number |
| Tokenizer.TokenAligned | gateway/server.js:35 | no token begins inside another |
| Tokenizer.ReplaceRendered | detection-engine/detect.js:1466-1468 | replacing a token's text puts back exactly its occurrences as a token, if it shows nowhere among the plain characters |
| Tokenizer.AllPutBack | detection-engine/detect.js:1463-1470 | replacing the tokens in any order that covers them restores the original, if each, when its turn comes, shows nowhere among the plain characters |
| Tokenizer.RestoredExactly | detection-engine/detect.js:1463-1470 | **Main result.** Where every value has fewer than two opening brackets, the original is restored if and only if each token, when its turn comes, shows nowhere among the plain characters |
| Tokenizer.AbsentClean | detection-engine/detect.js:1463-1470 | tokens whose text occurs nowhere in the original are so put back in any order |
| Tokenizer.CollisionExample | detection-engine/detect.js:1463-1470 | a text that holds a token's text among its plain characters is not restored |
| Tokenizer.CrossingExample | detection-engine/detect.js:1463-1470 | no token shows among the plain characters at first, but putting one back completes another, and the text is not restored |
| Tokenizer.OwnValueExample | detection-engine/detect.js:1463-1470 | a value that is its own token's text is restored although the token shows among the plain characters |
| BodyTokenization.Mapper.TokenFor | gateway/server.js:32-38 | a known value keeps its token and a new one gets a token of its type never issued; the two maps stay inverse |
| BodyTokenization.Mapper.TokenizeText | gateway/server.js:39-48 | every finding of the text, and nothing else, is replaced by the token of its value; new tokens are of the type of a finding with that value |
| BodyTokenization.Mapper.MapStrings | gateway/canonical.js:56-73 | every string of the mapped body has all its findings replaced, and nothing else changes; it throws exactly when the nesting is too deep |
| BodyTokenization.SkeletonKept | gateway/canonical.js:56-73 | keys, array lengths and other leaves are unchanged |
| BodyTokenization.MapUndone | gateway/canonical.js:56-73 | one mapping undoes another on a body exactly when it does on every string of the body |
| BodyTokenization.MapRedacts | gateway/canonical.js:56-73 | redacting every string redacts the body |
| BodyTokenization.TextRestored | gateway/server.js:39-48 | substituting the map back restores a text if every token is put back cleanly; and only if, where the values have fewer than two opening brackets; a text free of its tokens is put back cleanly |
| BodyTokenization.BodyRestored | gateway/server.js:55-59 | the same for a whole body: restored if, and for values of few brackets only if, every string of it is put back cleanly |
| BodyTokenization.RedactBodyLocally | gateway/server.js:55-59 | **Main result.** In every string of the redacted body every finding stands as the token of its value, no other token is put in, and no character of a found span is left; the body keeps its skeleton; in any order of its tokens the returned map undoes it if, and for values of few brackets only if, every string is put back cleanly, in particular if no token occurs in the body |
| TokenStore.MarkRevoked | gateway/tokens.js:266-268 | exactly the tokens of that id become revoked, every token keeps its place and all else, and `changed` says whether any did |
| TokenStore.OthersStillResolve | gateway/tokens.js:264-279 | a hash that resolved to a token of another id resolves to it still |
| TokenStore.Gateways.BeginResolve | gateway/tokens.js:131-135 | the stat gives the stamp of the current version, or that of a missing file when it fails |
| TokenStore.Gateways.LoadStore | gateway/tokens.js:136-140 | the cached store if the stamp is the same, else a fresh read, now cached; a store current during the resolution unless that read, or the resolution's own stat, failed |
| TokenStore.Gateways.FinishResolve | gateway/tokens.js:273-279 | the answer is the first live token with that hash in that store |
| TokenStore.Gateways.FinishMint | gateway/tokens.js:247-262 | the published store is the latest one with the token added |
| TokenStore.Gateways.FinishRevoke | gateway/tokens.js:264-270 | the published store is the latest one with that id revoked and nothing else changed, and a revocation that returned is in force |
| TokenStore.Gateways.Save | gateway/tokens.js:168-214 | a save appends one version or none, and drops its process's cache entry only when it returns |
| TokenStore.RevocationHonoured | gateway/tokens.js:264-279 | a resolution begun after a revocation returned never yields a token of that id, in any process, unless its own stat failed |
| TokenStore.RevocationExactly | gateway/tokens.js:128-141 | **Main result.** It yields one if and only if its own stat failed on an existing file and its process held an entry keyed `none` whose first live token of that hash has that id |
| TokenStore.MintKept | gateway/tokens.js:216-235 | a mint that returned is in every later store, revoked or not, whatever stats and reads failed |
| TokenStore.MintResolves | gateway/tokens.js:247-279 | and resolves, unless the resolution's own stat or the read behind its store failed, or it was revoked |
| TokenStore.DeniedExactly | gateway/tokens.js:102-141 | **Main result.** A token not revoked by then is denied if and only if the read behind the store seen failed, or the resolution's own stat failed and its process held an entry keyed `none` with no live token of that hash |
| TokenStore.StaleExample | gateway/tokens.js:131-137 | with two failed stats around a revocation the revoked token still resolves |
| TokenStore.DeniedExample | gateway/tokens.js:112-116 | after a failed read a valid token is denied until the file changes |
| Rotation.DueExactly | server/crypto.js:82-100 | a token needs resealing exactly when retiring the previous key would lose it |
| Rotation.SealOpens | server/crypto.js:57-60 | what is sealed opens to its plaintext with the current key alone |
| Rotation.OpensExactly | server/crypto.js:57-100 | a token opens to a text exactly when that text was sealed under what is now the current or the previous key, and encryption is on |
| Rotation.Store.ResealToken | scripts/rotate-data-key.js:34-44 | a replacement is made exactly for a due token and opens to the same plaintext; the counts say what was met |
| Rotation.Store.ResealRecord | scripts/rotate-data-key.js:46-53 | the patched record opens field by field as before and is settled |
| Rotation.Store.RotateRecord | scripts/rotate-data-key.js:55-72 | one row is resealed in place from its current content, or found missing; a dry run writes nothing |
| Rotation.Store.RotateDataKey | scripts/rotate-data-key.js:78-86 | **Main result.** Wherever the run stops, every field nobody else touched opens to its original plaintext; a finished run leaves nothing to reseal; with no unreadable field everything opens with the current key alone; a dry run writes nothing and counts the same |
| Rotation.SecondRunIdle | scripts/rotate-data-key.js:78-86 | a second run after a finished one reseals none |
| Rotation.FinishedExactly | scripts/rotate-data-key.js:78-86 | `unreadable` is 0 exactly when every sealed field opens with the current key alone |

## Left out

- SSE re-assembly (`sseJsonFrames`, `sseResponseInspection`, `streamJson`): it needs a JSON parser, and what remains is one map that appends texts per key.
- Sockets, timers, `fetch`, Express, process spawning, `pg_dump`, `pg_restore`, access-control lists and command lines: only the outcomes they deliver are modelled.
- Lone surrogates in JSON strings, and key order by UTF-16 code units where it differs from code points.
- `JSON.stringify` of finite numbers: a number is its shortest decimal text, and the two zeros, which print alike, are one; stored texts that parse to the same value are not told apart.
- Decoding of wire bytes as UTF-8 or Latin-1.
- JsonReader.CanonicalReads: its reader takes text without white space between tokens, any run of number characters as a number, and no surrogates; every print is such a text.
- Icap.ParseEncapsulated: reads signed decimal digits and the empty text as offsets and takes anything else as malformed; `Number()` also accepts forms such as `1e2`, `0x10` and `5.0`.
- The text of Redis error replies is kept raw, without `safeText`; `respLimits` and the expected reply count are taken as already bounded.
- Redis TTL behaviour of the Redis-backed limiter, and the parsing of limiter input before it reaches the counter.
- `normalizedKey`: keys are taken as already normalised; checkpoints are typed records rather than arbitrary JSON.
- AuditIntegrity.VerifyAuditChainForDatabase: which query parameters a database driver binds, one by one or as an array, is a parameter of the model, of which only that texts are bound is known; stored texts that do not parse, nesting deep enough to exhaust the call stack, and errors of the database itself are left out.
- RespTheorems.ErrorChunkingInvisible: covers responses whose fault is an error reply among well-formed ones; what a malformed stream settles on can depend on where it is cut, as with `+OK` followed by more than was asked for.
- IcapTheorems.FragmentationInvisible: assumes heads of at most `maxHeaderBytes - 3` bytes, chunk size lines under 64 bytes and a buffer within `maxRawBytes`, because the overflow tests depend on where a CRLF is split.
- IcapTheorems.EchoRoundTrip: reads back the payload of the echo; the printing of the outer ICAP head is not modelled.
- RateLimiter.SqliteLimiter.Check: one class stands for both SQLite limiters; storage errors are not modelled.
- PgRestore.Restore.Run: a superuser who renames, alters or drops the restored database behind the run is excluded; the contents of the dump, the ACL text and the version check are reduced to steps that succeed or throw; the file publication inside it is one step.
- Publication.Publisher.Publish: permissions and fsync are steps that touch no name; other processes do not touch private names and do not hold a file open across its deletion; the content a file or directory came with is part of its identity.
- Publication.Publisher.AssertCurrent: compares identity and link count; the source also compares mtime, ctime and birthtime with those of the final check, which can only make it refuse more.
- Publication.Publisher.CreateDirectory: the recovery of a directory that could not be secured is one removal.
- `inspectAuthenticatedSqliteSnapshot` beyond the chain verification it calls, manifests, restore copies, S3 and scheduling.
- Tokenizer.RestoredExactly: the only-if half needs values with fewer than two opening brackets; beyond that a text can be restored although it was not put back cleanly, as `Tokenizer.OwnValueExample` shows.
- `collectStrings`, `deepText` and the rest of gateway/canonical.js: they only gather text.
- TokenStore.RevocationHonoured: takes every published file to have a new stamp, the lock to exclude, and ids to be fresh; size limits and directory checks are left out.
- Rotation.Store.RotateDataKey: other processes are taken to seal under the current key, and each record's update to be one transaction.
- Detector rules, policy gates, verdict tables, server/db.js, catalogs, simulators, installers and generators: shallow, or not algorithms.
