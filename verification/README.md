# Phasmid: a verified model of its state machines and codecs

Phasmid keeps files in a fixed-size container that looks like random bytes, and
surrounds it with small state machines: an access-key lifecycle, a file namespace
for each Face, an attempt limiter, an approval gate, an audit chain, a registry of
Vessels. This project models those parts in Dafny and proves what they are for,
over all inputs and all runs. Where files are written step by step, power may fail
after any step: the atomic store survives all of them, a registry migration loses no
detail at any of them, and an ordinary registry save can lose all Face detail at
exactly two of them. Check it with `dafny verify dfyconfig.toml`.

| file | what it models |
|---|---|
| `KeyContext.dfy` | the context string and secret that go into key derivation |
| `ContainerLayout.dfy`, `RecordCipher.dfy` | slot spans, record framing, the record header codec |
| `Vault.dfy`, `VaultLaws.dfy`, `PhasmidVault.dfy` | the vault operations, the plain map they refine, what each does to later reads, the object that performs them |
| `FaceNamespace.dfy`, `FaceVault.dfy`, `FillerBuilder.dfy` | the files of a Face, both Faces on their vault, and the generated filler |
| `Audit.dfy` | the appender and the verifier of the hash chain |
| `Approval.dfy` | request, grant and consume, with lazy purging |
| `PngScrub.dfy`, `JpegScrub.dfy`, `Bytes.dfy` | the metadata scrubbers and the PNG detector |
| `Registry.dfy`, `AggregateProfile.dfy`, `Settled.dfy` | the registry split, the aggregate profile, and when a record is a fixed point |
| `Migration.dfy`, `LegacyMigration.dfy` | the registry files written step by step, and the migration of a legacy registry over many start-ups |
| `VesselRegistry.dfy` | runs of register, unregister and update over those files |
| `Limiter.dfy`, `StateStore.dfy`, `FileLimiter.dfy`, `RateLimit.dfy` | both limiters, the persisted one, and the atomic store behind it |
| `CuePolicy.dfy`, `MatchWindow.dfy` | sequence matching and the five-frame match window |
| `Text.dfy`, `Ranges.dfy`, `Wrappers.dfy` | decimal numbers, JSON strings, text order, counting, results |

How the model is built:

- Objects that change their fields in the program are classes here. Each method is
  proved equal to a step function on the object's contents, and the properties are
  proved about runs of those steps.
- Cryptography is ideal and symbolic, so no assumption is made that could be
  inconsistent. A key is the term it was derived from. An octet of ciphertext carries
  the key, nonce, associated data and plaintext it came from, so only the exact
  ciphertext opens, and only under what sealed it. A digest or tag is the term it was
  computed from. Random bytes are raw octets given as inputs of the requested length.
- Clocks, random bytes, the result of a passphrase check and per-frame match results
  are inputs of the calls.
- Text and bytes are strings with one character a byte, so a name stands for its
  UTF-8 encoding and lengths are byte lengths. Cue tokens are text of one character
  a code point.

What the program's own comments and documentation suggest does not always hold. Each
failure has its exact condition proved, and an input at which it happens:

- `store` writes both passwords' copies, but it can raise after writing the first
  (`Vault.StoreFailsHalfway`, at the input of `Vault.StoreHalfDone`).
- "Most recent" in a Face means the largest time stamp, so it is the last stored file
  exactly when no surviving earlier file has a later stamp
  (`FaceNamespace.ChosenIsLastStored`, at the input of `ClockStepsBack`).
- The sidecar is written before the index so that Face detail always exists somewhere.
  That is so for a migration (`LegacyMigration.MigrationNeverLosesDetail`). Any other
  save overwrites the only copy in place, and power lost then loses all detail, old and
  new (`Migration.ReadableCopyExactly`, `SealedDetailLostExactly`, at the disks of
  `OrdinarySaveLosesDetail`).
- `consume` returns a result, but raises when the request aged out before its grant did
  (`Approval.KeyErrorExactly`, at the trace of `LateConsumeRaises`).
- A freshly registered Vessel does not load back equal to what was saved: registration
  leaves the aggregate profile out, and empty bindings and destroy verifiers are filled
  in once (`Settled.FreshRegistrationChangesOnce`; in general
  `Settled.LoadedRecordSettlesExactly`).
- A failure is meant to survive the restart that follows it. That is so exactly when the
  phase table lets a limiter record over the file: when the file is missing, initialized
  or bricked, and not when it is enrolled, ready, pending a restriction or corrupt, which
  a file that does not read counts as (`FileLimiter.SavesAcceptedExactly`,
  `LockoutTakesHoldExactly`, at the files of `RefusingFiles`). The limiter's own writes,
  cut off anywhere, never leave such a file (`PersistedRunRefines`).
- Registering a path again is meant to restore its record after the index was lost. What
  the sidecar held survives exactly when it is what a fresh registration holds under that
  path (`Migration.RegisteringAgainKeepsExactly`, after any registry's save cut off with
  the index truncated).
- A migration cut off between the shred and the new index leaves no index, and that is
  the only way it fails to finish (`LegacyMigration.MigrationFinishes`, at the start-up of
  `CutAfterShredLosesIndex`).

## Model

| member | source | states |
|---|---|---|
| `KeyContext.ContextInjective` | src/phasmid/kdf_engine.py:71-80 | two derivation contexts built from gate cues are equal only when password, cue (token and repeat count), mode and role all are, although passwords may contain the separators |
| `KeyContext.FreeFormCuesCollide` | src/phasmid/kdf_engine.py:78-80 | with cues that are not gate tokens two different inputs share a context, so the gate's vocabulary is needed |
| `KeyContext.SameCueContext` | src/phasmid/kdf_engine.py:71-80 | under one cue, whatever it is, mode and role, different passwords always give different contexts |
| `KeyContext.JoinInjectiveOnGateCues` | src/phasmid/ai_gate.py:325-344 | joining distinguishes every gate cue, the empty one and every repeat count included |
| `KeyContext.BuildKdfSecret` | src/phasmid/kdf_engine.py:82-95 | the loop that skips empty providers returns the key followed by every provider's secret in order |
| `KeyContext.KdfSecretInjective` | src/phasmid/kdf_engine.py:82-109 | with the providers fixed, the secret tells apart any two access keys and a missing one |
| `ContainerLayout.SlotsTileContainer` | src/phasmid/container_layout.py:28-46 | every byte of a container of any size lies in exactly one of the four slots, and each mode is its two slots |
| `ContainerLayout.SlotPlaces` | src/phasmid/container_layout.py:28-46 | the dummy half comes first, and in each half the open slot takes the smaller half of what there is |
| `ContainerLayout.CapacityIsPositive` | src/phasmid/container_layout.py:48-54 | at 4096 bytes and more every slot holds at least 980 plaintext bytes, so the too-small error cannot occur |
| `ContainerLayout.WriteTouchesOnlyItsSpan` | src/phasmid/container_layout.py:81-95 | an in-place write puts its payload in its span and changes no disjoint span |
| `ContainerLayout.WriteSlotBytes` | src/phasmid/vault_core.py:143-178 | a slot-sized write replaces that slot's bytes, no other slot's, and keeps the file's length |
| `RecordCipher.LoadsInvertsDumps` | src/phasmid/record_cypher.py:64-75 | the header text loads back to its fields for every file name, escapes included, and every number |
| `RecordCipher.BasenameIsLastPart` | src/phasmid/record_cypher.py:68 | the name a record keeps is what follows the last slash of the path, and nothing when the path ends in one |
| `RecordCipher.PurgeHeaderIsOneByteLonger` | src/phasmid/record_cypher.py:64-75 | the restricted copy's header is longer than the open one's by one byte plus any difference in timestamp digits |
| `RecordCipher.UnpackInvertsPack` | src/phasmid/record_cypher.py:83-88 | the four-byte length prefix reads back as the header length |
| `RecordCipher.EncryptRecord` | src/phasmid/record_cypher.py:42-92 | it fails exactly when the record does not fit, and otherwise the ciphertext has the one length that fills the slot |
| `RecordCipher.SlotPlaintext` | src/phasmid/record_cypher.py:77-88 | header, payload and padding fill the slot's plaintext capacity exactly |
| `RecordCipher.RecordRoundTrip` | src/phasmid/record_cypher.py:42-137 | a sealed record opens to its payload and name under exactly the key, nonce and slot that sealed it, and under nothing else |
| `RecordCipher.AadSeparatesSlots` | src/phasmid/record_cypher.py:37-40 | the associated data of two slots of a container is equal only for the same slot |
| `Vault.WriteSlotRefines` | src/phasmid/vault_core.py:143-178 | a slot write, whether it succeeds or raises, leaves the files meaning what the plain map says, created access key included |
| `Vault.StepRefines` | src/phasmid/vault_core.py:78-141 | every operation fails exactly when the plain map's does and keeps the files in step with it |
| `Vault.RunRefines` | src/phasmid/vault_core.py:78-178 | over every run of format, store, open-only store, purges, key rotation and destruction, and brick, the four slots hold exactly the map's records and the container keeps its length |
| `Vault.SlotRetrieval` | src/phasmid/vault_core.py:206-252 | a slot's bytes decrypt, for any password, cue and key file, to exactly what the map says of the slot |
| `Vault.RunRetrieval` | src/phasmid/vault_core.py:194-252 | after any run from a device with no vault, every retrieval returns exactly the map's prediction |
| `Vault.GateCueLookup` | src/phasmid/vault_core.py:206-252 | while cues come from the gate, a slot answers exactly its own access key, password and cue |
| `Vault.StepLeavesOtherSlots` | src/phasmid/container_layout.py:74-105 | no operation, failing ones included, changes a byte of a slot it does not name |
| `Vault.StoreThenRetrieve` | src/phasmid/vault_core.py:88-123 | after a successful store the access password returns the data, the last part of the given path (payload.bin when there is none) and role open, and the restricted password the same data and name with role purge |
| `Vault.NameOfPath` | src/phasmid/record_cypher.py:68 | of dir/base, base without a slash, that name is base, or payload.bin when base is empty |
| `VaultLaws.StoreOutcomeExactly` | src/phasmid/vault_core.py:88-123 | which error a store raises, and that it raises none otherwise: no container, one password for both, an ill-sized access key, an open or a restricted copy that does not fit |
| `VaultLaws.StoreKeepsOtherMode` | src/phasmid/vault_core.py:88-141 | no store, successful or not, changes what any password and cue retrieve from the other mode |
| `VaultLaws.OpenOnlyReads` | src/phasmid/vault_core.py:125-141 | after an open-only store its password returns data and name with role open, no other opens that slot, and the restricted slot still opens to what it did |
| `VaultLaws.StoreAloneClearsRestricted` | src/phasmid/vault_core.py:88-123 | a store without a restricted password leaves a restricted slot that nothing opens |
| `VaultLaws.FormatForgets` | src/phasmid/vault_core.py:81-86 | after formatting nothing is retrieved from either mode and the key is the old one unless a rotation was asked for or there was none |
| `VaultLaws.PurgeForgets` | src/phasmid/vault_core.py:264-265 | purging a mode leaves nothing to retrieve from it and every answer of the other as it was |
| `VaultLaws.PurgeOtherForgets` | src/phasmid/vault_core.py:267-268 | purging the other mode leaves every answer of the accessed one and nothing of the other |
| `VaultLaws.RotationLocks` | src/phasmid/kdf_engine.py:134-138 | after a rotation to a key nothing was sealed under, nothing is retrieved, and rotating back restores everything |
| `Vault.StoreFailsHalfway` | src/phasmid/vault_core.py:104-123 | once the open copy fits and a key can be had, store raises exactly when the open slot's slack (plus one in an odd mode) is below what the longer restricted header needs |
| `Vault.StoreHalfDone` | src/phasmid/vault_core.py:104-123 | at the smallest container and a payload that fills its open slot, store raises and the access password reads the new payload |
| `Vault.NothingWithoutAccessKey` | src/phasmid/vault_core.py:257-263 | once the access key is destroyed no password and cue retrieve anything, before the container is overwritten, after, and at every byte in between |
| `PhasmidVault.PhasmidVault.WriteRandom` | src/phasmid/container_layout.py:56-62 | the chunked fill is one write of exactly the requested length, and terminates |
| `PhasmidVault.PhasmidVault.LoadOrCreateAccessKey` | src/phasmid/kdf_engine.py:97-135 | an existing key of the right length is returned unchanged, a missing one is created, an ill-sized one is refused and kept |
| `PhasmidVault.PhasmidVault.FormatContainer` | src/phasmid/vault_core.py:81-86 | the new files are the format step's, and a refused key leaves the container untouched |
| `PhasmidVault.PhasmidVault.WriteOne` | src/phasmid/vault_core.py:143-178 | key creation, sealing and the in-place write have the outcome and files of the slot-write step, though the padding branch is kept |
| `PhasmidVault.PhasmidVault.Store` | src/phasmid/vault_core.py:88-123 | the two slot writes and the randomized slot have the outcome and files of the store step, half-done failures included |
| `PhasmidVault.PhasmidVault.StoreOpen` | src/phasmid/vault_core.py:125-141 | only the open slot is written |
| `PhasmidVault.PhasmidVault.PurgeOther` | src/phasmid/container_layout.py:97-105 | the mode not accessed is overwritten whole |
| `PhasmidVault.PhasmidVault.Brick` | src/phasmid/vault_core.py:257-259 | the access key is gone even when the container is missing, and otherwise every byte is overwritten |
| `PhasmidVault.PhasmidVault.RotateKey` | src/phasmid/kdf_engine.py:134-138 | the key file holds the new key and the container is untouched |
| `PhasmidVault.PhasmidVault.DestroyKeys` | src/phasmid/kdf_engine.py:140-150 | the key file is gone and the container is untouched |
| `PhasmidVault.PhasmidVault.RetrieveWithPolicy` | src/phasmid/vault_core.py:194-204 | the open slot is tried before the restricted one, and the role of the one that answers is returned |
| `FaceNamespace.RunTracks` | src/phasmid/services/vessel_workflow_service.py:1043-1076 | over every run of add, remove, generate and clear the operator files are exactly the stores not yet removed, numbered in store order even when numbers are reused |
| `FaceNamespace.TracksAdd` | src/phasmid/services/vessel_workflow_service.py:622-630 | a new file gets a number above every number present, so it becomes the last of the history |
| `FaceNamespace.TracksWithout` | src/phasmid/services/vessel_workflow_service.py:1233-1247 | removing a name drops exactly its store and keeps the order of the rest |
| `FaceNamespace.FillerKeepsOperatorFiles` | src/phasmid/services/vessel_workflow_service.py:1295-1384 | generating or clearing filler alters no operator file, even one named like filler |
| `FaceNamespace.ChosenIsLastStored` | src/phasmid/services/vessel_workflow_service.py:1676-1702 | the unnamed choice is the last stored operator file exactly when no surviving earlier one has a later stamp |
| `FaceNamespace.ChosenIsUnique` | src/phasmid/services/vessel_workflow_service.py:1688-1702 | the sort key has one maximum, so the choice is determined |
| `FaceNamespace.ClockStepsBack` | src/phasmid/services/vessel_workflow_service.py:1688-1702 | with a clock stepping back the earlier file is returned |
| `FaceNamespace.RunReturnsLastStored` | src/phasmid/services/vessel_workflow_service.py:1664-1727 | after any run with a clock that never steps back, from an empty Face or a legacy single file, an unnamed retrieval returns the bytes stored last and not removed |
| `FaceNamespace.Face.NextStoreSeq` | src/phasmid/services/vessel_workflow_service.py:622-630 | the loop returns one more than the largest number in the map |
| `FaceNamespace.Face.AddPayload` | src/phasmid/services/vessel_workflow_service.py:1043-1076 | when the write took, the named file is there with its data, marked as the operator's and numbered past all others, and every other file is as it was; when it did not, nothing changed; the outcome tells the write's three endings apart |
| `FaceNamespace.Face.RemoveFile` | src/phasmid/services/vessel_workflow_service.py:1233-1247 | a missing name is an error that changes nothing, otherwise exactly that name goes |
| `FaceNamespace.Face.GenerateDummyProfile` | src/phasmid/services/vessel_workflow_service.py:1288-1347 | when the write took, every generated file left is one of the specs under its name with its payload, none of the old filler stays, and the operator's files are as they were; when it did not, or nothing fits, nothing changed |
| `FaceNamespace.Face.ClearDummyProfile` | src/phasmid/services/vessel_workflow_service.py:1364-1384 | when the write took, no generated file is left and every other is there with its old value; when it was refused, nothing changed |
| `FaceNamespace.AddExactly` | src/phasmid/services/vessel_workflow_service.py:1043-1076 | what an add leaves in the map and reports, for every ending of the write |
| `FaceNamespace.RemoveExactly` | src/phasmid/services/vessel_workflow_service.py:1233-1247 | a remove drops the named file and no other when the write took, and changes nothing for a missing name or a refused write |
| `FaceNamespace.ClearExactly` | src/phasmid/services/vessel_workflow_service.py:1364-1384 | a clear leaves exactly the files that were not generated when the write took, and everything otherwise |
| `FaceNamespace.GenerateExactly` | src/phasmid/services/vessel_workflow_service.py:1295-1347 | a generation leaves the operator's files, none of the old filler, and only generated files that are specs under their names, with payload and stamp |
| `FaceNamespace.GenerateFillsLongestPrefix` | src/phasmid/services/vessel_workflow_service.py:1310-1336 | the specs written are the longest prefix each of whose steps fits the slot: the next one would not |
| `FaceNamespace.ChosenBeats` | src/phasmid/services/vessel_workflow_service.py:1688-1702 | the unnamed choice has a stamp no older than any candidate's, and on equal stamps the larger number |
| `FaceNamespace.Face.ChooseLatest` | src/phasmid/services/vessel_workflow_service.py:1676-1702 | the result is a candidate that no candidate exceeds in store order |
| `FaceNamespace.Face.RetrieveFile` | src/phasmid/services/vessel_workflow_service.py:1664-1727 | a named file is returned exactly or refused, an output name is a hint that falls back to the latest file, and an empty Face is an error |
| `FaceVault.CallRefines` | src/phasmid/services/vessel_workflow_service.py:829-895 | one call on a Face, read from and stored to the vault, is one step of its file map with the outcome of the two slot writes, and changes nothing the other Face shows |
| `FaceVault.CallsRefine` | src/phasmid/services/vessel_workflow_service.py:829-895 | over any run of calls on both Faces of a Vessel, each Face's open slot holds exactly what its own operations made of its map |
| `FaceVault.EndingExactly` | src/phasmid/services/vessel_workflow_service.py:829-895 | what a call on a Face of a vault reports, for every operation and every ending of the two slot writes |
| `FaceVault.ClearThroughVault` | src/phasmid/services/vessel_workflow_service.py:1364-1384 | clearing through the vault leaves in its Face exactly the files that were not generated when the open slot took the write, and everything when it did not |
| `FaceVault.GenerateThroughVault` | src/phasmid/services/vessel_workflow_service.py:1295-1347 | generating through the vault leaves the operator's files and only generated files of the specs when the open slot took the write, and everything when it did not |
| `FaceVault.VaultReturnsLastStored` | src/phasmid/services/vessel_workflow_service.py:1664-1727 | from an empty Face, through any calls on both Faces with a clock that never steps back, half-done stores included, a nameless retrieval from the vault returns the bytes stored last and not removed |
| `FaceVault.FormattedIsEmpty` | src/phasmid/vault_core.py:81-86 | after formatting, both Faces show no files |
| `FillerBuilder.TextPayload` | src/phasmid/services/vessel_workflow_service.py:643-653 | exactly the requested number of bytes, a prefix of head and repeated lines; the loop terminates |
| `FillerBuilder.CsvPayload` | src/phasmid/services/vessel_workflow_service.py:655-661 | exactly the requested number of bytes, a prefix of the numbered rows; the loop terminates |
| `FillerBuilder.PdfPayload` | src/phasmid/services/vessel_workflow_service.py:663-682 | exactly the requested number of bytes: the document under its title cut off, or whole with a comment of percent signs to fill up |
| `FillerBuilder.JpgPayload` | src/phasmid/services/vessel_workflow_service.py:684-688 | exactly the requested number of bytes: JPEG header, zeros and footer, cut off below 22 bytes |
| `FillerBuilder.ExtraPayload` | src/phasmid/services/vessel_workflow_service.py:719-728 | a numbered file holds notes, a summary, a report, rows or an image exactly as the ending of its name says |
| `FillerBuilder.GeneratedNamesDiffer` | src/phasmid/services/vessel_workflow_service.py:729 | two numbered names are equal only for the same number |
| `FillerBuilder.NamedInOrderIsDistinct` | src/phasmid/services/vessel_workflow_service.py:694-732 | no two names of a spec list coincide, fixed and numbered ones together |
| `FillerBuilder.BuildGeneratedFileSpecs` | src/phasmid/services/vessel_workflow_service.py:690-732 | for every positive target the loop terminates, names are distinct, each file holds what its ending says under its own title and has the size the target asks of its place, and the total lies between target and max(2112, target + 191) |
| `Audit.VerifyLog` | src/phasmid/audit.py:67-95 | the verifier raises exactly when some line is a JSON value but no object or carries a tag outside ASCII; otherwise it reports exactly the faults of each line given the state left by the lines before, and accepts when there are none |
| `Audit.ReportExactly` | src/phasmid/audit.py:67-95 | an error is reported exactly when the line it names, counted from 1, has that fault: no JSON, a wrong version, a sequence that is not its place among the records, a previous hash that is not the last one carried, a hash or a tag that does not cover it |
| `Audit.ComputeChainState` | src/phasmid/audit.py:113-130 | the appender's walk returns the state of its specification, or raises on a sequence that is no number or a line it cannot search |
| `Audit.AuditLog.AuditEvent` | src/phasmid/audit.py:27-53 | when enabled it creates the key if missing and appends one record, or raises leaving the log alone |
| `Audit.AuditLog.VerifyIntegrity` | src/phasmid/audit.py:56-95 | a missing log is accepted, a log without its key is rejected, otherwise the lines decide, or make it raise |
| `Audit.ErrorFreeIsChained` | src/phasmid/audit.py:67-95 | the verifier does not raise and reports no error exactly when every line is blank or a record and the records form a chain |
| `Audit.WalksAgree` | src/phasmid/audit.py:113-130 | on a chained log the appender's separate walk ends with the sequence and hash the verifier expects next |
| `Audit.NewRecordGood` | src/phasmid/audit.py:33-45 | the record just built is good in its place exactly when the caller's fields override none of version, sequence and previous_hash with another value |
| `Audit.NewRecordFields` | src/phasmid/audit.py:33-47 | a new record holds event, both clocks, process and chain state under their own keys unless the caller set them, every field of the caller, the two hashes, and nothing else |
| `Audit.HashesCover` | src/phasmid/audit.py:44-46 | two records have one entry hash exactly when they agree on all but the two hashes, and one tag exactly when they agree on all but the tag |
| `Audit.AppenderContinuesLast` | src/phasmid/audit.py:113-130 | on any log the appender stops exactly at a record with an entry hash whose sequence is no number or a line it cannot search, and otherwise continues the last record with an entry hash |
| `Audit.AppendKeepsVerified` | src/phasmid/audit.py:27-49 | appending to a verified log succeeds, and gives a verified log exactly under that condition on the caller's fields |
| `Audit.HonestIsAppended` | src/phasmid/audit.py:27-49 | the honest history is what repeated appends write, and each such log verifies |
| `Audit.AcceptedIsPrefixOfHistory` | src/phasmid/audit.py:56-95 | with unforgeable tags a log is accepted exactly when every line is blank or a record and the records are a prefix of the honest ones, so no edit, insertion, reordering or gap is accepted: each is reported or makes the verifier raise |
| `Approval.DualApprovalGate.DropExpiredRequests` | src/phasmid/approval_flow.py:256-263 | the first purge loop removes exactly the expired requests and the grants under their nonces |
| `Approval.DualApprovalGate.DropExpiredGrants` | src/phasmid/approval_flow.py:265-267 | the second removes exactly the expired grants |
| `Approval.DualApprovalGate.FindRequestByNonce` | src/phasmid/approval_flow.py:269-273 | the first pending request in insertion order carrying the nonce, if any |
| `Approval.DualApprovalGate.RequestApproval` | src/phasmid/approval_flow.py:105-140 | reply and contents are the request step's |
| `Approval.DualApprovalGate.GrantApproval` | src/phasmid/approval_flow.py:142-198 | reply and contents are the grant step's, the request looked up before the purge |
| `Approval.DualApprovalGate.ConsumeGrant` | src/phasmid/approval_flow.py:200-236 | reply and contents are the consume step's, the raised KeyError included |
| `Approval.DualApprovalGate.ReportStatus` | src/phasmid/approval_flow.py:238-250 | the purge happens, and the report shows live entries only |
| `Approval.PurgeExactly` | src/phasmid/approval_flow.py:252-267 | a purge drops requests older than 300 s, grants older than 60 s and grants of dropped requests, and nothing else |
| `Approval.AskExactly` | src/phasmid/approval_flow.py:105-140 | after any trace, an action outside the two is not gated, a live request of the action answers with its own nonce, and only without one a request with the new nonce is added |
| `Approval.StatusExactly` | src/phasmid/approval_flow.py:238-250 | after any trace, the report is pending with the nonce of the action's live request, available exactly when its grant is live, and empty without one |
| `Approval.ApproveExactly` | src/phasmid/approval_flow.py:142-198 | which reply a grant gets by age, role and passphrase, and what is left pending and granted after it |
| `Approval.ConsumeExactly` | src/phasmid/approval_flow.py:200-236 | which reply a consume gets, and that grant and request go together or not at all |
| `Approval.ConsumeIsApproved` | src/phasmid/approval_flow.py:105-236 | over any trace, a successful consume follows a request of that action with that nonce at most 300 s old and a supervisor-verified grant of it at most 60 s old, in that order |
| `Approval.GrantsBelongToPending` | src/phasmid/approval_flow.py:256-267 | between calls every live grant belongs to the pending request with its nonce and action |
| `Approval.ConsumedAtMostIssued` | src/phasmid/approval_flow.py:200-236 | a nonce is consumed at most as often as it was issued, so one issued once is never consumed twice, with no assumption on the random source |
| `Approval.KeyErrorExactly` | src/phasmid/approval_flow.py:207-230 | consume raises exactly when an expired request carries the nonce of an unexpired grant for the action, and leaves the purged state |
| `Approval.LateConsumeRaises` | src/phasmid/approval_flow.py:207-230 | asked at 0 s, granted at 290 s and consumed at 301 s, consume raises |
| `Approval.PromptApprovalSucceeds` | src/phasmid/approval_flow.py:105-236 | from any state, a request for a free action with a new nonce that is granted and consumed in time succeeds, and a second consume does not |
| `PngScrub.ChunksExactly` | src/phasmid/metadata.py:279-289 | the parser finds the one list of complete chunks, up to IEND, that the data divides into |
| `PngScrub.ScrubPng` | src/phasmid/metadata.py:272-293 | the output is the signature and, byte for byte and in order, the complete chunks up to IEND that are not metadata |
| `PngScrub.KeepEach` | src/phasmid/metadata.py:272-293 | each chunk is kept in its place, tEXt, iTXt, zTXt, eXIf and tIME dropped |
| `PngScrub.ScrubIsIdempotent` | src/phasmid/metadata.py:272-293 | the output never grows, divides into exactly the kept chunks, and a second pass changes nothing |
| `PngScrub.PngRisks` | src/phasmid/metadata.py:185-201 | the detector reports each metadata type once, walking within the scan limit |
| `PngScrub.RisksOfChunkList` | src/phasmid/metadata.py:185-201 | within the scan limit the report is exactly the metadata types present |
| `PngScrub.ScrubbedHasNoRisks` | src/phasmid/metadata.py:185-201 | the detector finds nothing in any scrubbed output, whatever its length |
| `PngScrub.DetectorAgreesWithScrubber` | src/phasmid/metadata.py:185-293 | on a whole file of at most 262144 bytes the detector is silent exactly when the scrubber changes nothing |
| `JpegScrub.ParsesExactly` | src/phasmid/metadata.py:233-265 | the scrubber succeeds exactly on data that reads as segments followed by SOS or EOI with two more bytes, and the reading is unique |
| `JpegScrub.ScrubJpeg` | src/phasmid/metadata.py:230-269 | the result is SOI, the segments that are not APP1 or APP13 in order, and the tail (verbatim from SOS, EOI alone), or a refusal |
| `JpegScrub.KeepEach` | src/phasmid/metadata.py:230-269 | each segment is kept in its place, APP1 and APP13 dropped |
| `JpegScrub.SecondPass` | src/phasmid/metadata.py:236-266 | the output never grows, and a second pass returns it unchanged when the image reaches a scan and refuses it otherwise |
| `Registry.SplitRecord` | src/phasmid/services/vessel_registry_seal.py:142-185 | both halves are those of the specification, built by loops over the faces |
| `Registry.RebuildFaces` | src/phasmid/services/vessel_registry_seal.py:214-222 | each face object gets its own detail laid over it and other items are dropped |
| `Registry.PublicCarriesNothingSealed` | src/phasmid/services/vessel_registry_seal.py:226-242 | no cleartext half, of any record, carries a sealed or a derived field, so it triggers no migration |
| `Registry.PublicKeysExactly` | src/phasmid/services/vessel_registry_seal.py:142-185 | what stays readable of a listed record is exactly path, label, faces, the flag, the count and the two stamps, and of each face id, creation time and selector |
| `Registry.MergeRestores` | src/phasmid/services/vessel_registry_seal.py:188-223 | with distinct face ids the merged halves give back every face and every field that is not derived |
| `Registry.MergedFaceExactly` | src/phasmid/services/vessel_registry_seal.py:188-223 | merging keeps each face in its place, lays the detail under its id over it field by field, and drops items that are no objects |
| `Registry.MergedFields` | src/phasmid/services/vessel_registry_seal.py:188-223 | besides the faces, merging sets the active id from the sealed half and nothing else |
| `Registry.SplitMergeNormalizes` | src/phasmid/services/vessel_service.py:253-278 | splitting, merging and normalizing a record equals normalizing it, labels and aggregate recomputed |
| `Registry.SaveLoadRoundTrip` | src/phasmid/services/vessel_service.py:303-377 | saving and loading records with distinct paths and face ids gives them normalized, and equal when they were normalized |
| `Registry.UnreadableSidecarStillLists` | src/phasmid/services/vessel_registry_seal.py:83-113 | without the sidecar a record still lists its path and every face id in order |
| `Registry.FaceFields` | src/phasmid/services/vessel_service.py:166-209 | a face's texts, numbers and flags are kept when of the right type, and as a registration sets them when missing |
| `Registry.RegisteredRecord` | src/phasmid/services/vessel_service.py:212-278 | a new Vessel is closed, never opened, and has the two standard Faces, empty and without credentials |
| `AggregateProfile.TotalsAreSumsAndMaxima` | src/phasmid/services/vessel_service.py:128-163 | counts, sizes, ratio and each distribution key are sums over the faces, the keys are those some face has, and score, level and stamp are maxima a face attains unless all are at or below the defaults |
| `AggregateProfile.AggregateSays` | src/phasmid/services/vessel_service.py:128-163 | the profile holds each sum under its own key, and HIGH when some face is, else MEDIUM when some face is, else LOW |
| `AggregateProfile.AggregateMaxima` | src/phasmid/services/vessel_service.py:128-163 | its score and stamp are those no face exceeds and some face has, or nothing |
| `AggregateProfile.AggregateTypes` | src/phasmid/services/vessel_service.py:128-163 | its file types are exactly those some face has, each with the sum over the faces |
| `AggregateProfile.TotalsIgnoreOrder` | src/phasmid/services/vessel_service.py:128-163 | all of them but the ratio are the same in every order of the faces |
| `AggregateProfile.AggregateTotals` | src/phasmid/services/vessel_service.py:128-163 | the accumulator loop returns those sums and maxima |
| `Settled.LoadedRecordSettlesExactly` | src/phasmid/services/vessel_service.py:166-278 | a loaded record is a fixed point of save and load exactly when every face's binding and destroy verifier are spelled out |
| `Settled.FreshRegistrationChangesOnce` | src/phasmid/services/vessel_service.py:253-278 | a registered Vessel loads back with the aggregate profile added and both Faces' bindings and destroy verifiers filled, nothing else changed, and is a fixed point from then on |
| `Settled.LoadedFaces` | src/phasmid/services/vessel_service.py:212-238 | loading keeps every face with an id, normalized and in order, adds the missing standard ones after them, and keeps ids distinct |
| `Settled.FaceSettlesExactly` | src/phasmid/services/vessel_service.py:166-209 | normalizing a face the registry produced leaves it alone exactly when both of those are present |
| `Migration.RegistryFiles.SplitAll` | src/phasmid/services/vessel_service.py:349-354 | the loop gathers the public halves in order and the sealed halves by path |
| `Migration.RegistryFiles.Save` | src/phasmid/services/vessel_service.py:343-377 | however many of its file steps run before power fails, the files are those of that step |
| `Migration.RegistryFiles.MergeAll` | src/phasmid/services/vessel_service.py:325-336 | each record is merged with the detail under its own path and normalized |
| `Migration.RegistryFiles.Load` | src/phasmid/services/vessel_service.py:303-340 | the records are what index and readable sidecar hold, a cleartext registry is saved with the shred, and power may fail in the read or after any file step |
| `Migration.ReadableCopyExactly` | src/phasmid/services/vessel_service.py:356-377 | in the middle of any save some copy of the Face detail, old or new, can be read exactly when the registry saved is empty, the new sidecar is complete, the index still carries the detail, or the sidecar is not yet truncated and opens with the key on disk |
| `Migration.SealedDetailLostExactly` | src/phasmid/services/vessel_registry_seal.py:115-131 | a save cut off loses both what the sidecar held and what was being saved exactly while a non-empty registry's new sidecar is being written over a readable one |
| `Migration.OrdinarySaveLosesDetail` | src/phasmid/services/vessel_registry_seal.py:115-131 | after a finished save of any registry, the next save of any other has two steps at which the index holds no detail and the sidecar cannot be read |
| `Migration.MigrationCrashSafe` | src/phasmid/services/vessel_service.py:316-377 | one migration, with nothing readable in the sidecar: while the index is intact the next start loads the very same records from it and migrates again, until the readable sidecar is complete |
| `Migration.SealedCopyHoldsFace` | src/phasmid/services/vessel_registry_seal.py:115-131 | a complete sidecar holds every sealed field of every face under its path and id |
| `Migration.FinishedSaveStays` | src/phasmid/services/vessel_service.py:316-340 | a finished save of any records is never migrated again |
| `Migration.FinishedSaveLoads` | src/phasmid/services/vessel_service.py:316-340 | a finished save of records with distinct paths and face ids loads them back, normalized |
| `LegacyMigration.MigrationNeverLosesDetail` | src/phasmid/services/vessel_service.py:316-377 | from a legacy index with distinct paths and face ids, after any number of start-ups each cut off anywhere, the index is intact or the readable sidecar holds every sealed field of every Face it listed, as normalizing spells them |
| `LegacyMigration.MigrationFinishes` | src/phasmid/services/vessel_service.py:316-377 | the first start-up that gets as far as the shred decides: without one the index stays intact, one cut off before the new index was written leaves no index for good, and any other ends the migration for good and loads every legacy Face with its detail |
| `LegacyMigration.CutAfterShredLosesIndex` | src/phasmid/services/vessel_service.py:356-377 | one start-up whose power fails at the shred leaves every later one listing nothing, with all detail still in the readable sidecar |
| `Migration.RegisteringAgainKeepsExactly` | src/phasmid/services/vessel_service.py:356-385 | after a save cut off with the index truncated nothing is listed, and registering a path leaves a sidecar of that one record: what was held under a path survives exactly when it is that path and equals a fresh registration's half |
| `VesselRegistry.VesselRegistry.RegisterVessel` | src/phasmid/services/vessel_service.py:380-385 | a path not listed is appended as a fresh record and saved, a listed one writes nothing |
| `VesselRegistry.VesselRegistry.UnregisterVessel` | src/phasmid/services/vessel_service.py:388-396 | every record of the path goes and the rest is saved, and the answer says whether there was one |
| `VesselRegistry.VesselRegistry.UpdateRecord` | src/phasmid/services/vessel_service.py:399-440 | of the first record of the path, or of a fresh one, the flag, the stamp of opening or closing, the count, captions, faces with their labels and profile, and the active id are set exactly as passed, every other key keeps its value, and the list is saved |
| `VesselRegistry.UpdateSetsExactly` | src/phasmid/services/vessel_service.py:399-440 | field by field what an update sets in any record: opening stamps last_opened_at and adds one to open_count exactly when asked, closing stamps last_closed_at only, and no other field changes |
| `VesselRegistry.UpdatePersists` | src/phasmid/services/vessel_service.py:399-440 | over both files, at whatever time they are read again, a listed Vessel, once updated, lists flag, count, stamps, label and active id as the update set them and otherwise as listed before |
| `VesselRegistry.CallChangesOwn` | src/phasmid/services/vessel_service.py:380-440 | one call changes what is listed under its path as if that record were alone, and nothing under any other path |
| `VesselRegistry.CallsChangeOwn` | src/phasmid/services/vessel_service.py:380-440 | over every run of calls on both files, each path lists exactly what its own calls made of its record, whatever was done to the others in between |
| `VesselRegistry.SoundSettles` | src/phasmid/services/vessel_service.py:253-278 | a record with both standard faces and no ill-typed binding is normalized the same at any time, and settled by it |
| `LegacyMigration.HalfLoadsTwice` | src/phasmid/services/vessel_registry_seal.py:188-223 | a retry that finds a sealed copy beside the intact index loads each Face normalized twice |
| `LegacyMigration.TwiceSettles` | src/phasmid/services/vessel_service.py:166-209 | normalizing a face a third time changes nothing |
| `LegacyMigration.OnceSettlesExactly` | src/phasmid/services/vessel_service.py:166-209 | the second time changes nothing either exactly when the face's binding was missing or an object |
| `Migration.ListsWithoutSidecar` | src/phasmid/services/vessel_registry_seal.py:83-113 | a saved registry with an unreadable sidecar lists the same paths and face ids |
| `Limiter.AttemptLimiter.CheckScope` | src/phasmid/attempt_limiter.py:34-47 | decision and table are the check step's, whose decisions `DeniedExactly` characterizes |
| `Limiter.AttemptLimiter.RecordFailure` | src/phasmid/attempt_limiter.py:52-58 | the table is the failure step's |
| `Limiter.AttemptLimiter.RecordSuccess` | src/phasmid/attempt_limiter.py:60-61 | the scope's state is dropped |
| `Limiter.WaitIsExact` | src/phasmid/attempt_limiter.py:34-47 | a denial names the first second at which the scope is allowed: denied at every earlier one, allowed and forgotten at that one |
| `Limiter.AllowanceRestored` | src/phasmid/attempt_limiter.py:39-58 | after a served lockout one failure fewer than the maximum is survived at any times, and the next one locks |
| `Limiter.DeniedExactly` | src/phasmid/attempt_limiter.py:34-61 | in every serial run a check is denied exactly when the failures since the last success end a batch of the maximum and the last is less than a lockout ago, and it names what is left of that lockout |
| `Limiter.LockoutSpacesFailures` | src/phasmid/attempt_limiter.py:34-61 | in every serial run failures a maximum apart, with no success between, are a lockout apart |
| `Limiter.LockoutBound` | src/phasmid/attempt_limiter.py:34-61 | in every serial run no window as long as the lockout holds more than the maximum of failures without a success |
| `StateStore.FromDictInvertsToDict` | src/phasmid/state_store.py:89-116 | a record reads back from its dictionary exactly when its schema version is the supported one |
| `StateStore.ReadsExactly` | src/phasmid/state_store.py:98-116 | a document reads as a record exactly when it is what the record is written as on every key it has, only time and attributes missing and then empty |
| `StateStore.LocalStateStore.WriteJsonAtomic` | src/phasmid/state_store.py:136-160 | however many of its steps run before power fails, the disk is that of that step |
| `StateStore.LocalStateStore.WriteRecord` | src/phasmid/state_store.py:177-197 | a change of phase outside the table is refused and changes nothing, a rewrite in the same phase is not |
| `StateStore.MayWriteExactly` | src/phasmid/state_store.py:45-78 | a write may keep the phase or move to a later one, from uninitialized only to initialized or corrupt, and back only from a pending restriction to ready and from bricked to initialized |
| `StateStore.WrittenReads` | src/phasmid/state_store.py:177-197 | a finished write reads back as the record given, under schema 1 and the time of the write |
| `StateStore.CrashReadsOldOrNew` | src/phasmid/state_store.py:136-175 | after power loss at any step a reader sees the old record or the whole new one, and no other record changes |
| `FileLimiter.FileAttemptLimiter.Save` | src/phasmid/attempt_limiter.py:95-102 | the record holding the whole table is written, or refused by the phase table |
| `FileLimiter.FileAttemptLimiter.Perform` | src/phasmid/attempt_limiter.py:70-80 | memory changes as in the plain limiter, and the disk only when the operation saves |
| `FileLimiter.LoadInvertsSave` | src/phasmid/attempt_limiter.py:82-102 | loading a saved record gives back the table it was saved from |
| `FileLimiter.DecodesExactly` | src/phasmid/attempt_limiter.py:82-93 | an entry loads exactly when it is what its state is written as on every key it has, missing numbers read as zero |
| `FileLimiter.EntriesExactly` | src/phasmid/attempt_limiter.py:82-93 | a start-up loads exactly the entries that are objects, or fails on one that does not decode |
| `FileLimiter.PersistedStepRefines` | src/phasmid/attempt_limiter.py:64-102 | from any file that accepts saves, one operation, possibly cut off mid-save and restarted, is never refused, decides as in memory, and carries on the table from before or after it |
| `FileLimiter.PersistedRunRefines` | src/phasmid/attempt_limiter.py:64-102 | from any file that accepts saves, over any run of operations, restarts and power failures the file limiter decides as one in-memory limiter that never restarts |
| `FileLimiter.StartsInStep` | src/phasmid/attempt_limiter.py:82-86 | a device without the file starts with an empty table in step with it |
| `FileLimiter.PersistedLockoutBound` | src/phasmid/attempt_limiter.py:64-102 | from any file that accepts saves and holds no failures, over any serial run with restarts and power failures, no window as long as the lockout holds more than the maximum of recorded failures without a success |
| `FileLimiter.WritableExactly` | src/phasmid/state_store.py:45-78 | a limiter record may be written over a file exactly when its phase is none of enrolled, ready, restricted-pending and corrupt |
| `FileLimiter.SavesAcceptedExactly` | src/phasmid/attempt_limiter.py:64-102 | from any device on which the limiter starts, no save of any run is refused exactly when the file accepts limiter records |
| `FileLimiter.RefusedNeverLearns` | src/phasmid/attempt_limiter.py:82-102 | otherwise, with a process for each operation, the file never changes and every decision is taken on the table it holds |
| `FileLimiter.LockoutTakesHoldExactly` | src/phasmid/attempt_limiter.py:49-102 | a scope that fails the maximum number of times, each in its own process, is locked out afterwards exactly when the file accepts limiter records |
| `FileLimiter.RefusingFiles` | src/phasmid/state_store.py:162-189 | a file that does not read, and a sound record of phase ready, both load and refuse |
| `RateLimit.RateLimiter.Enforce` | src/phasmid/web_server.py:521-533 | acceptance and buckets are the step's, which `AcceptedExactly` characterizes, and a refusal stores nothing |
| `RateLimit.AcceptedExactly` | src/phasmid/web_server.py:521-533 | over any trace whose clock never steps back, a request is accepted exactly when fewer than 20 accepted ones of its key are less than 60 s old |
| `RateLimit.BucketIsRecentHistory` | src/phasmid/web_server.py:524-529 | with non-decreasing time the stored bucket prunes to exactly the accepted requests of the last 60 s |
| `RateLimit.WindowHoldsAtMostMax` | src/phasmid/web_server.py:530-533 | any 60 s half-open window holds at most 20 accepted requests of a key |
| `CuePolicy.ObjectCuePolicyGate.EvaluateSequence` | src/phasmid/object_cue_policy_gate.py:90-131 | greedy matching accepts exactly when the tokens are shown in order by some increasing choice of frames within the budget |
| `CuePolicy.ObjectCuePolicyGate.Evaluate` | src/phasmid/object_cue_policy_gate.py:43-88 | in terms of the raw frames: with an expected sequence it accepts exactly when none is ambiguous and some increasing choice within the budget is matched, in the right relation and reads as the tokens; without one when enough frames are matched; state and reason for each case |
| `CuePolicy.NormalizeExactly` | src/phasmid/object_cue_policy_gate.py:140-147 | a frame keeps a known state and its relation, an unknown state becomes none, and its token loses the spaces around it and no others |
| `CuePolicy.ObjectCuePolicyGate.StableMatchCount` | src/phasmid/object_cue_policy_gate.py:133-138 | the loop counts the matched frames |
| `MatchWindow.MatchGate.Observe` | src/phasmid/ai_gate.py:249-278 | the loop over the modes reports what the window calls for |
| `MatchWindow.MatchGate.UpdateFromGateResults` | src/phasmid/ai_gate.py:280-323 | an ambiguous frame empties the history, any other is observed and the gate results get the stable counts |
| `MatchWindow.MatchGate.CommitReference` | src/phasmid/ai_gate.py:568-584 | a saved rebind empties history and report, a failed one changes nothing |
| `MatchWindow.MatchGate.ClearReferences` | src/phasmid/ai_gate.py:647-663 | a saved clear returns to the initial state, a failed one changes nothing |
| `MatchWindow.HistoryIsWindow` | src/phasmid/ai_gate.py:249-251 | over every run the history is the last five frames since the last reset |
| `MatchWindow.ReportedExactly` | src/phasmid/ai_gate.py:253-323 | a single mode is reported exactly when it is active in at least three of those frames and the other is not, ambiguity exactly when both are or the last update was an ambiguous gate frame |
| `MatchWindow.AuthSequenceIsGateCue` | src/phasmid/ai_gate.py:329-344 | every sequence the gate emits, in every recognition mode, is one of its tokens repeated |
| `MatchWindow.TokenExactly` | src/phasmid/ai_gate.py:329-344 | in every recognition mode and setting, the secret token is emitted exactly when the last report is the secret mode with confidence at the true threshold; otherwise coercion-safe yields the dummy token, demo the dummy token at the fallback threshold and none below it, strict none |
| `MatchWindow.ConfidenceExactly` | src/phasmid/ai_gate.py:346-358 | the confidence is 0 without a match, the clamped score with one while the model is on, and 1 otherwise |
| `MatchWindow.StableExactly` | src/phasmid/ai_gate.py:253-278 | over every run a mode is stable exactly when at least three of the last five frames since the reset show it |
| `MatchWindow.StrictTokenExactly` | src/phasmid/ai_gate.py:329-358 | in strict mode without the model a mode's token is emitted exactly when the window reports that mode alone |

## Left out

- AES-GCM, Argon2id, SHA-256 and HMAC themselves, the chance of guessing a key or a tag, flash erasure and timing.
- Vault.RunRefines: the vault is opened with the size its file has, as the workflow layer does; a file of another length is not modelled.
- Vault.GateCueLookup: limited to gate cues, because with free-form cues two passwords can share a context (`KeyContext.FreeFormCuesCollide`); `Vault.RunRetrieval` has no such limit.
- RecordCipher.LoadsInvertsDumps: the loader accepts only the one spelling this program writes, which is the only text it ever authenticates; a format, version or KDF name of another spelling is one rejection.
- The conversion of a size in megabytes held as a float, and unsupported mode or role names.
- FaceNamespace.RunTracks: how the vault took a map is an input there and derived in `FaceVault`; time stamps are the instants they name.
- FaceVault.CallRefines: the JSON and base64 text of a map is an abstract encoding that decodes back; the Vessel is formatted, its access key is present, and each Face is always opened with the same password and cue.
- Registration of objects, passwords and registry bookkeeping around a Face operation, and the plausibility score.
- Audit.VerifyLog: numbers are compared by value, and any text found as a sequence counts as no number.
- The field sanitizer of the audit log: its result is the caller's fields.
- Approval.KeyErrorExactly: each call reads the clock once, where the program reads it again for a second expiry test.
- The role store: whether it is configured and whether the passphrase verifies are inputs.
- Scrubbing of Office archives and text, and the dispatcher over file types.
- Registry.SaveLoadRoundTrip: index entries that are neither text nor objects are not modelled; conversions between text, numbers and nested JSON are parameters.
- Settled.LoadedRecordSettlesExactly: takes upper-casing to settle after one application and to leave LOW alone, as do the theorems of `LegacyMigration`.
- AggregateProfile.TotalsAreSumsAndMaxima: the ratio is a sum of reals, where the program adds floating-point numbers.
- Migration.ReadableCopyExactly: the sidecar key is the local key file; a key taken from the environment is not modelled, nor is a partly written index that happens to parse.
- LegacyMigration.MigrationNeverLosesDetail: a key drawn anew is taken to differ from the one an older, unreadable sidecar was sealed under.
- VesselRegistry.CallsChangeOwn: the faces a call passes have distinct ids, paths are already resolved, and no call is cut off; cut-off saves are `Migration`'s.
- Limiter.LockoutBound: holds for serial runs in which each failure follows an allowed check, as callers make them; limits below one are not modelled.
- StateStore.FromDictInvertsToDict: numbers and text held in each other's JSON type are rejected, where the program converts them.
- StateStore.LocalStateStore.WriteJsonAtomic: directory creation, permission bits and syncing are not modelled.
- Threads, the capture loop, image matching and quality scores: per-frame results are inputs.
- Standby state, capabilities, restricted actions, passphrase policy and access tokens: short tables that would only add easy members.
