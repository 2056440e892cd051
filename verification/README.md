# Verified model of the defined-quant local host

The host is content-addressed: it canonicalises JSON, hashes it, stores records in a session store,
runs bounded workers, validates and authorises plans, and pages or searches the results. This
project models those parts in Dafny 4.11 and proves what they are relied on for. Check it with
`dafny verify dfyconfig.toml`.

The modules, from the bottom up:

- `Foundations`, `Utf8`, `Binary64`: Python text and bytes, lexicographic order and sorting, strict
  UTF-8, and binary64 as exponent and fraction fields.
- `CanonicalJson`, `CanonicalBytes`, `CanonicalHash`, `CanonicalReader`: the tagged canonical form, its
  printer, a decoder and an independent reader for it, and the domain-separated digest that references,
  plans, receipts and approvals use.
- `JsonObjects`, `DataRecords`, `OperationRecords`, `MemberPaths`: records with their canonical
  projections and references, the derivation of an operation record from a bundle directory, and the
  portable names in it.
- `CasEntries`, `CasWritten`, `SessionCas`, `SessionCasRuns`, `SessionCasIntegrity`, `SessionPublication`,
  `SessionLifetime`, `SessionScopes`: verification of stored entries, the store as step functions and as a
  class proved equal to them, invariants over every run in which the disk changes arbitrarily between
  steps, the integrity results, when publishing succeeds, what closing and cursors mean, and several
  sessions over the registry they share.
- `WorkerController`: the bounded worker protocol as interleaved atomic steps, with the lock-protected
  regions as methods on the real fields.
- `JsonText`, `Catalog`: compact JSON text with its reader, subject manifests as a Merkle DAG, cycle
  refusal, and the hash cache.
- `ManagedPlans`, `PlanValidation`, `PlanRefusals`: plans, receipts, approvals and bindings, plan
  validation with its refusals, and the authorization chain.
- `Discovery`, `ContractIndex`: tokens, ranking, the inverted index, and the plain scan it refines.
- `Base64Url`, `Cursor`, `Paging`: session cursors and byte-budgeted pages.
- `CanonicalTimestamp`, `Normalizer`, `NormalizerOutcome`: timestamps and their canonical UTC form, and
  the dataset normaliser with its ledger, its acceptance and its faults.
- `Framing`, `JsonPointer`, `ProcessTree`, `CalendarMonths`: the bounded LF reader, JSON pointers, the
  worker's process tree, and the month measures.

Code that mutates state is a class or a method with loops, proved against a specification function;
the results about it are lemmas on that function. Lemmas switch automatic induction off and carry
their inductions in their bodies.

SHA-256 is a function parameter. Results that need it assume it free of collisions
(`CanonicalHash.CollisionFree`; `CanonicalHash.CollisionFreeExists` shows that some function is, with
digests that are plain texts). A cursor's selector digest is assumed free of collisions only on the
selectors compared, and the hash of a manifest's text only where the catalog results say so. The strict
JSON reader of a session is any function that reads at least the flat compact objects
`Cursor.ReadCompact` reads, with integers up to 2^53-1 (`Cursor.SessionsExist`); that a token's payload
is among them is proved. The host's readers and writers of stored documents, Unicode normalisation and
the native file and process layers are parameters too; where the source checks what they return, the
check is in the model and nothing is assumed.

Six results are stated where the expected property fails at an edge, with the exact condition:

- Printing an empty JSON location and reading it back gives the path `[""]`, so the round trip holds
  exactly for nonempty paths (`JsonPointer.ReadingUndoesPrinting`); a list index and its decimal key
  print the same pointer (`JsonPointer.PointersIdentifyPaths`).
- A walk over pages is refused only for a limit out of range or at an index whose smallest page does
  not fit (`Paging.WalkIsComplete`, `Paging.RefusedIffSmallestDoesNotFit`).
- A request whose native close, or whose look at its work directory, raises in the `finally` block never
  returns its permit; every other one does (`WorkerController.FinishedRequestHistory`,
  `WorkerController.QuiescenceRestoresCapacity`). Both failures are reachable
  (`WorkerController.TidyingCanLosePermit`, `WorkerController.ClosingCanLosePermit`).
- `strftime("%Y")` pads years below 1000 on some platforms only; where it does not, the normaliser's
  answer for 0999-01-01T00:00:00Z is refused by the validator (`CanonicalTimestamp.EarlyYearExample`),
  and exactly the sources without such a year are normalised soundly
  (`Normalizer.NormalizedPayloadIsValid`, `Normalizer.NormalizingAgainChangesNothing`).
- A load of an operation returns the bytes of its first reading of the bundle and verifies the second;
  they are the published ones exactly if the two readings agree (`SessionCasIntegrity.TwoReadings`),
  which they need not (`SessionCasIntegrity.StaleReadSucceeds`). A publication verifies its stage in the
  same way (`SessionCasIntegrity.PublicationReconcilesIff`, `SessionCasRuns.StalePublicationSucceeds`).
- An entry that appears at the moment of a rename is charged as what was staged; the charge is the size
  of the entry on the disk exactly if no such entry of another size appears
  (`SessionCasRuns.DatasetChargeIff`, `SessionCasRuns.OperationChargeIff`,
  `SessionCasRuns.LateEntryIsMischarged`).

An approval with a lone surrogate in its actor or note has no hash (`ManagedPlans.ApprovalHashIff`), but
no such record is ever built: length-constrained text fields refuse lone surrogates, and
`PlanValidation.ConstructedChainsVerify` includes that refusal.

## Model

| member | source | states |
|---|---|---|
| `Binary64.SafeConversionIsExact` | protocol/canonical.py:38-52 | Every integer of magnitude at most 2^53-1 converts to binary64 without rounding: the fields of the double denote the integer itself. |
| `Binary64.MagnitudeIsInjective` | protocol/canonical.py:38-52 | Two finite doubles with the same magnitude have the same exponent and fraction fields, denormals included. |
| `Binary64.NumberHexIffSameValue` | protocol/canonical.py:38-52 | Two accepted numbers print the same 16 hex digits exactly when they have the same value, so an int and the equal float, and the two zeros, print alike and nothing else does. |
| `Binary64.SameValueSameAcceptance` | protocol/canonical.py:38-52 | Whether a number is accepted depends on its value only. |
| `Utf8.DecodeIffEncode` | protocol/canonical.py:31-35 | Strict UTF-8 decoding accepts exactly the byte strings that encoding produces, and the two undo each other (section 3 of RFC 3629). |
| `CanonicalBytes.EncodeString` | protocol/canonical.py:86-100 | The escaping loop writes the specified quoted string, and refuses text with a lone surrogate. |
| `CanonicalBytes.ParseOfEscaped` | protocol/canonical.py:86-100 | Reading an escaped string body up to its closing quote gives back the text, whatever follows (section 7 of RFC 8259). |
| `CanonicalBytes.TaggedTree` | protocol/canonical.py:55-83 | The recursive tagging with its local lists produces the specified tree, or refuses where the source raises. |
| `CanonicalBytes.TaggedObject` | protocol/canonical.py:69-82 | Tagging members after sorting the keys by UTF-8 bytes gives the same entries as sorting the tagged members. |
| `CanonicalBytes.ParseOfPrint` | protocol/canonical.py:103-114 | Nested arrays, strings and literals of the canonical text are uniquely decodable, whatever text follows. |
| `CanonicalJson.EquivHasSameTree` | protocol/canonical.py:55-83 | Values equal up to key order, int against float and signed zero have the same tagged tree, and are accepted or refused together. |
| `CanonicalJson.SameTreeIsEquiv` | protocol/canonical.py:55-83 | Conversely, one tagged tree comes from equal values only. |
| `CanonicalHash.DecodeOfCanonicalBytes` | protocol/canonical.py:117-120 | A decoder reads the tagged tree back from the canonical bytes. |
| `CanonicalReader.BytesAreReadBack` | protocol/canonical.py:55-120 | A reader that knows nothing of the encoder reads from the canonical bytes a value equal to the one encoded: kinds, booleans, texts, items in order, members in increasing order of their keys' UTF-8 bytes, and numbers by sign, exponent and fraction. |
| `CanonicalReader.DoubleIsReadBack` | protocol/canonical.py:38-52 | The sixteen hex digits of a double, read as sign bit, exponent field and fraction field, give the double back. |
| `CanonicalHash.CanonicalBytesIffEquiv` | protocol/canonical.py:117-120 | Two accepted values have equal canonical bytes exactly when they are equal up to object-key order, int/float and signed zero. |
| `CanonicalHash.PayloadIsInjective` | protocol/canonical.py:123-136 | The NUL-joined message that is hashed determines its domain and its canonical bytes. |
| `CanonicalHash.CanonicalHashIffEquiv` | protocol/canonical.py:123-136 | With a collision-free SHA-256, equal digests mean equal domains and equal values, and equal values in one domain give equal digests. |
| `CasEntries.ReadMembers` | shared/session_cas.py:606-611 | Reading members in byte order against a shrinking budget succeeds exactly when all are readable files that fit it together. |
| `CasEntries.ReadOperationBundle` | shared/session_cas.py:579-611 | A bundle is read exactly when its directory is private, its names are portable and distinct, its count is allowed, all files are readable and their bytes are within the limit; what is returned is every file. |
| `CasEntries.DatasetEntryPins` | shared/session_cas.py:402-424 | Any two entries that verify under one dataset reference hold the same dataset: records that agree in every field, and the same table. |
| `CasEntries.SameReferenceSameDataset` | shared/session_cas.py:402-424 | Records and payloads that match one reference agree in every field and hold the same table. |
| `CasEntries.OperationContentPins` | shared/session_cas.py:553-577 | Any two bundles that verify under one operation reference are equal byte for byte, and their records name the same source. |
| `CasEntries.WrittenDatasetSize` | shared/session_cas.py:368-373 | The files of a dataset entry as written hold exactly the bytes that are reserved for it. |
| `CasEntries.WrittenOperationSize` | shared/session_cas.py:446-494 | So do the record, the manifest and the members of an operation entry as written. |
| `CasWritten.DatasetEntryIff` | shared/session_cas.py:402-424 | A dataset is read from an entry exactly when its publication is accepted under the reference, the entry is the one that is written for it, and its documents are read back. |
| `CasWritten.OperationEntryIff` | shared/session_cas.py:553-629 | An operation's content is verified in an entry exactly when its publication is accepted under the reference, the entry is the one that is written for it, the record is read back and the bundle reconciles with record and dataset. |
| `CasWritten.ReadBundleIff` | shared/session_cas.py:579-611 | A bundle directory yields a manifest and members exactly when it is private, holds these files and nothing else, and they are valid and within the limit. |
| `SessionCas.SessionScopeRegistry.Register` | shared/session_cas.py:112-114 | Adds the session to the holders of one reference and touches no other. |
| `SessionCas.SessionScopeRegistry.IsKnownOutside` | shared/session_cas.py:116-119 | True exactly when some other session holds the reference. |
| `SessionCas.SessionScopeRegistry.UnregisterSession` | shared/session_cas.py:121-129 | Removes the session everywhere and keeps no reference without a holder. |
| `SessionCas.SessionCas.QuarantineEntry` | shared/session_cas.py:698-708 | Marks the reference corrupt whether or not the entry could be moved away. |
| `SessionCas.SessionCas.RegisterReference` | shared/session_cas.py:306-315 | Charges a reference once and only within the quota. |
| `SessionCas.SessionCas.LoadDatasetRecord` | shared/session_cas.py:389-400 | The method behaves as the step function the run theorems speak about. |
| `SessionCas.SessionCas.PublishDatasetRecord` | shared/session_cas.py:328-387 | The same for publishing a dataset: screening, an existing entry, staging, a competing entry, and registration. |
| `SessionCas.SessionCas.LoadOperationRecord` | shared/session_cas.py:521-535 | The same for loading an operation, including the quarantine of its dataset on the way. |
| `SessionCas.SessionCas.OpenOperationEntry` | shared/session_cas.py:553-629 | The same for verifying one operation directory together with the dataset behind it. |
| `SessionCas.SessionCas.StageOperationEntry` | shared/session_cas.py:477-519 | The same for staging an operation, with an entry that may appear before or at the rename. |
| `SessionCas.SessionCas.PublishOperationRecord` | shared/session_cas.py:426-519 | The same for publishing an operation. |
| `SessionCas.SessionCas.CloseSession` | shared/session_cas.py:835-861 | The same for closing: every reference expires whatever becomes of the tree, which is removed only under a valid marker; without one it stays and closing succeeds. |
| `SessionCasRuns.RunHasInv` | shared/session_cas.py:207-261 | Over every run of publish, load, close and arbitrary changes to the disk: registered references have published contents, the used bytes are the sum of the sizes charged, within the quota, and sources are registered. |
| `SessionCasRuns.DatasetChargeIff` | shared/session_cas.py:349-376 | A publication charges the size of the entry that is at the destination afterwards, exactly unless an entry of another size appears at the rename. |
| `SessionCasRuns.OperationChargeIff` | shared/session_cas.py:457-509 | The same for operations, where an entry that appears before the rename is charged with its own size. |
| `SessionCasRuns.LateEntryIsMischarged` | shared/session_cas.py:368-376 | The failing run: a verified entry of another size that appears at the rename is charged as what was staged. |
| `SessionCasRuns.CorruptStaysForever` | shared/session_cas.py:698-708 | Once marked corrupt, a reference is marked corrupt in every later state. |
| `SessionCasRuns.CorruptIsRefused` | shared/session_cas.py:317-326 | For a corrupt reference no load, no publication and no cursor succeeds. |
| `SessionCasRuns.LoadOutcome` | shared/session_cas.py:389-400 | A load succeeds exactly for a readable reference whose entry verifies, and then changes nothing; for a readable reference whose entry does not verify it answers corrupt and marks the reference. |
| `SessionCasRuns.FailedLoadIsFinal` | shared/session_cas.py:521-535 | Once a load has found an entry corrupt, no later load or publication of that reference succeeds in any run, whatever is put on the disk. |
| `SessionCasRuns.DatasetPublishedIff` | shared/session_cas.py:328-387 | Publishing a dataset succeeds with a reference, and leaves exactly one given disk, if and only if the session is open, the content is accepted, the reference is not corrupt, and the existing entry verifies and fits, or the new one fits, is written, verifies, and is renamed or finds an entry that verifies. |
| `SessionCasRuns.DatasetRefusedBecause` | shared/session_cas.py:328-387 | Each code of a refused dataset publication and the condition it stands for. |
| `SessionCasRuns.OperationPublishedIff` | shared/session_cas.py:426-519 | The same for operations, with the exact content where an entry is already there and the entries that may appear before or at the rename. |
| `SessionCasRuns.OperationRefusedBecause` | shared/session_cas.py:426-519 | Each code of a refused operation publication and the condition it stands for. |
| `SessionCasRuns.LoadedOperationHasDataset` | shared/session_cas.py:613-629 | An operation load succeeds only if its dataset load would succeed too. |
| `SessionCasRuns.BadDatasetCorruptsOperation` | shared/session_cas.py:521-535 | When the dataset behind a registered operation cannot be loaded, loading the operation fails and marks the operation corrupt. |
| `SessionCasRuns.PlacedIsRegistered` | shared/session_cas.py:306-315 | Without a competing entry, whatever a publication puts in place is registered: after the reservation the registration cannot run out of space. |
| `SessionCasRuns.PublishedOperationLoads` | shared/session_cas.py:426-519 | An operation just published verifies again while the disk is untouched. |
| `SessionCasRuns.SameReadings` | shared/session_cas.py:553-577 | A load is the one whose two readings of the bundle agree, when they do. |
| `SessionCasRuns.StalePublicationSucceeds` | shared/session_cas.py:477-509 | The failing run of a publication: a content that does not reconcile is registered when the second reading of its stage sees the bundle of a sound entry. |
| `SessionCasIntegrity.GateIsSound` | shared/session_cas.py:402-424 | The store's own checks let through only what a reference stands for. |
| `SessionCasIntegrity.LoadedDatasetWasPublished` | shared/session_cas.py:389-424 | After any run with any changes to the stored entries, a dataset that loads was published under its reference: its record agrees in every field and it is the same table. |
| `SessionCasIntegrity.LoadedOperationWasPublished` | shared/session_cas.py:521-577 | After any run, an operation that loads while its bundle stays as it is has byte for byte the manifest and members that were published, and a record that agrees in every field. |
| `SessionCasIntegrity.TwoReadings` | shared/session_cas.py:553-577 | When the bundle changes between the two readings of one load: a load that succeeds has reconciled the published bundle, and it returns the published bytes exactly if its first reading saw the same bundle. |
| `SessionCasIntegrity.StaleReadSucceeds` | shared/session_cas.py:553-577 | The failing run: any other readable bundle put under a reference that loads is returned when the old bundle is back at the second reading. |
| `SessionCasIntegrity.PublicationReconcilesIff` | shared/session_cas.py:477-577 | What a publication registers is the content it was given, and that content reconciles under its reference exactly if the two readings of the entry that carries it agree. |
| `SessionCasIntegrity.UsedBytesAreCharged` | shared/session_cas.py:306-315 | In every reachable open state the used bytes are the sum of the charges, one per registered reference, within the session limit; a charge is the size of what was staged, or of the entry found at the destination. |
| `SessionCasIntegrity.UsedBytesAreStored` | shared/session_cas.py:306-315 | While nobody else touches the entries and none was corrupt, the used bytes are exactly the bytes of the registered entries on the disk. |
| `SessionScopes.RunHasRegistry` | shared/session_cas.py:97-129 | In every reachable state of any number of sessions the shared registry says of each reference exactly which open sessions have it registered. |
| `SessionScopes.ScopeDeniedIff` | shared/session_cas.py:317-326 | A session refuses a load as out of scope exactly when it is open, the kind is right, the reference is neither corrupt nor registered here, and another session has it registered. |
| `SessionLifetime.CloseOutcome` | shared/session_cas.py:835-861 | Closing ends every reference and empties the tree exactly under a valid marker and if it can be removed; it fails only if it cannot; closing again does nothing. |
| `SessionLifetime.ClosedIsFinal` | shared/session_cas.py:297-299 | After a close every load, publication and cursor of any later moment answers RECORD_REFERENCE_NOT_FOUND and changes nothing. |
| `SessionLifetime.CursorResumes` | shared/session_cas.py:710-833 | A cursor given out at any time decodes at every later moment: to its index while the session is open and its record not corrupt, to a refusal otherwise, and to a refusal under any other reference, view or selector. |
| `SessionCasIntegrity.SourcesAreRegistered` | shared/session_cas.py:613-629 | In every reachable state a registered operation's dataset is registered in the same session. |
| `SessionCasIntegrity.PublishThenLoad` | shared/session_cas.py:328-400 | A dataset just published loads again, unchanged, while its entry is untouched. |
| `SessionCasIntegrity.PublishThenLoadOperation` | shared/session_cas.py:426-535 | An operation just published loads again, byte for byte, while the disk is untouched. |
| `SessionPublication.FreshDatasetIsPublished` | shared/session_cas.py:328-387 | Where nothing interferes and the session has room, an accepted dataset whose documents are read back is published: its entry is on the disk, its reference registered, its bytes charged. |
| `SessionPublication.BuiltOperationIsPublished` | shared/session_cas.py:426-519 | So is an operation whose record was built over its own bundle and a dataset that loads. |
| `DataRecords.PayloadDigestIff` | shared/data_records.py:583-590 | Payload digests are equal exactly for the same table: the same columns and canonically equal cells. |
| `DataRecords.DatasetReferenceIff` | shared/data_records.py:798-830 | Dataset references are equal exactly for records that agree in every field: JSON parts as canonical values, texts, counts, columns, bounds and events outright. |
| `DataRecords.OperationReferenceIff` | shared/data_records.py:1024-1049 | Operation references are equal exactly for records that agree in every field: members, renderers, digests and source outright, component, runner, literals and compatibility as canonical values. |
| `DataRecords.MatchesIff` | shared/data_records.py:832-860 | A payload is a record's exactly when digest, size and columns are the record's and the bounds are the first and last observations of the first timestamp column, or absent without one. |
| `DataRecords.ReferenceTextIsInjective` | shared/data_records.py:226-231 | A reference's text determines its kind and digest. |
| `OperationRecords.CollectMembers` | shared/operation_records.py:216-255 | The member loop reads, bounds, hashes and totals the declared files; the first failing one decides. |
| `OperationRecords.CollectIff` | shared/operation_records.py:216-255 | It succeeds exactly when every declared file is there, within its limit, with its digest, and then lists the true sizes. |
| `OperationRecords.DeriveEstablishes` | shared/operation_records.py:177-306 | What a successful derivation has checked: the name set, the exact manifest bytes, every member, the total size. |
| `OperationRecords.DeriveIff` | shared/operation_records.py:177-306 | A record is derived exactly from a directory that holds the manifest's exact bytes and every declared file and nothing else, within all limits, with a readable result. |
| `OperationRecords.DerivedRecordHolds` | shared/operation_records.py:177-306 | A derived record holds the manifest's head and digest, the binding it was given, every declared file once with its digest and true size, and exactly the artifacts' renderers. |
| `OperationRecords.DerivedIsConsistent` | shared/data_records.py:978-1022 | Every derived record passes the record's own validator: member kinds, unique portable paths, canonical member and renderer order. |
| `OperationRecords.BuildThenReconcile` | shared/operation_records.py:309-382 | A record built over a directory reconciles with the unchanged directory, to the same manifest. |
| `OperationRecords.OnlyOneBundleReconciles` | shared/operation_records.py:350-382 | Records with one manifest digest reconcile with one directory only: any change to the names, the manifest bytes or a member's bytes is refused. |
| `OperationRecords.ReconciledInputIsBound` | shared/operation_records.py:134-174 | A reconciled dataset operation ran on the literals and the whole mapped columns of the payload its record pins. |
| `OperationRecords.BindingAcceptedIff` | shared/operation_records.py:134-174 | A binding is accepted exactly when it has no dataset and its literals are the request's input, or when the dataset is the one it names, its provenance is the manifest's, and the input of literals and whole mapped columns is the request's. |
| `OperationRecords.ReconciledBundleBytes` | shared/operation_records.py:403-466 | Once a bundle reconciles, reading it again adds no failure, and the copy holds every file byte for byte. |
| `OperationRecords.ResolveDatasetFields` | shared/dataset_registry.py:693-723 | Mapping succeeds exactly when no source or target repeats, no target is a literal and every source is a column; the output is then the literals and each mapped column whole. |
| `MemberPaths.PortableIff` | protocol/operation.py:65-89 | A path is portable exactly when it has 1 to 512 characters and every segment between slashes is word characters with single inner dots and no device name before its first dot, in any case. |
| `MemberPaths.SameKeyIff` | protocol/operation.py:65-89 | Two portable paths have one key exactly when they differ at most in the case of ASCII letters. |
| `WorkerController.ReachableHasInv` | shared/worker_runtime.py:144-360 | The protocol invariant holds after every interleaving of requests and the closer. |
| `WorkerController.CapacityIsBounded` | shared/worker_runtime.py:171-172 | Requests holding capacity never exceed the limit, and the semaphore accounts for each of them. |
| `WorkerController.NothingStartsAfterClose` | shared/worker_runtime.py:542-567 | After `close` has set its flag no worker is launched and no bundle is published. |
| `WorkerController.FinishedRequestHistory` | shared/worker_runtime.py:161-360 | A finished request that acquired capacity released it, once, exactly if no step of its `finally` block raised; a launched worker was closed once, or its close raised; the `try` block of an operation succeeded exactly if its bundle was published, once, after verification and after the process was cleaned up. |
| `WorkerController.CleanupMovesForward` | shared/worker_runtime.py:601-636 | No step moves a worker's cleanup state back, forgets a worker or reopens it. |
| `WorkerController.StoppingStepByStep` | shared/worker_runtime.py:601-636 | Each clean-up step of a stopping worker, whatever the reason: its output stopped first if there is a failure reason, then terminated, waited for, killed, and only then reaped. |
| `WorkerController.ReapedWasKilled` | shared/worker_runtime.py:601-636 | Over every interleaving a stopped worker's process is reaped only after it was terminated, waited for and killed. |
| `WorkerController.OutcomesAreEarned` | shared/worker_runtime.py:161-360 | The outcome of a request is accounted for by what happened to it: a failure reason by the step that raised or reported it, a success by the publication or the answer. |
| `WorkerController.RequestsAreBounded` | shared/worker_runtime.py:601-652 | Under any interleaving a request takes at most 103 steps of its own. |
| `WorkerController.NeverStuck` | shared/worker_runtime.py:161-360 | Every unfinished request can take a step, whatever the others and the closer did. |
| `WorkerController.OperationsCanSucceed` | shared/worker_runtime.py:161-360 | While the controller is open, an operation on its normal course can always be completed by its own steps, to success. |
| `WorkerController.QuiescenceRestoresCapacity` | shared/worker_runtime.py:347-360 | When every request is over, the permits missing are exactly those of the requests whose clean-up raised and the workers still listed those whose native close raised: all capacity is back, and the done event set, exactly if none did. |
| `WorkerController.TidyingCanLosePermit` | shared/worker_runtime.py:350-360 | A failing run: any operation can publish its bundle and then fail to look at its work directory, and its permit is never released. |
| `WorkerController.ClosingCanLosePermit` | shared/worker_runtime.py:638-652 | Another: its native close raises, and its worker stays listed as well. |
| `WorkerController.SharedState.TryAcquire` | shared/worker_runtime.py:171-172 | Non-blocking acquisition is the protocol's acquire step on the real fields. |
| `WorkerController.SharedState.LaunchRegion` | shared/worker_runtime.py:221-234 | Reading the closed flag and listing the worker under one lock is the protocol's launch step. |
| `WorkerController.SharedState.PublishRegion` | shared/worker_runtime.py:322-331 | The last cancellation check and the rename under one lock are the protocol's publication step. |
| `WorkerController.SharedState.UnlistRegion` | shared/worker_runtime.py:638-652 | Removing the worker and setting the done event when none is left is the protocol's unlisting step. |
| `WorkerController.SharedState.ReleasePermit` | shared/worker_runtime.py:360 | Releasing the permit is the protocol's release step. |
| `WorkerController.SharedState.CloseRegion` | shared/worker_runtime.py:542-557 | The first region of `close` sets the flag once and names exactly the listed workers. |
| `WorkerController.Capture.Read` | shared/worker_runtime.py:99-131 | Whatever the chunks, the capture keeps the first limit + 1 accepted bytes and flags an overflow exactly when there were more than the limit. |
| `Catalog.ComputeManifest` | shared/catalog.py:405-476 | The recursion with its loop over dependencies terminates and computes the specified manifest or the first fault. |
| `Catalog.AncestorsDoNotMatter` | shared/catalog.py:405-416 | The ancestor stack only serves to find cycles: below fewer ancestors a manifest is the same. |
| `Catalog.HasManifestIff` | shared/catalog.py:405-476 | A subject has a manifest exactly when no dependency path from it closes a cycle or ends at a broken contract or a missing component. |
| `Catalog.CycleIffReachable` | shared/catalog.py:410-415 | In a catalog of sound contracts a cycle is reported exactly when one is reachable, with a path that closes it. |
| `Catalog.EqualHashesEqualManifests` | shared/catalog.py:433-449 | Equal subject hashes in two catalogs mean equal manifests at every dependency reachable along any path. |
| `Catalog.ManifestHoldsRecord` | shared/catalog.py:451-476 | A manifest holds the record's local part and, sorted, exactly the specifications of its dependencies that are no components. |
| `Catalog.EqualHashesEqualRecords` | shared/catalog.py:433-476 | Equal subject hashes mean that the records reached along any path agree in local part, component dependencies and external specifications. |
| `Catalog.TextDigestIsCollisionFree` | shared/catalog.py:96-103 | The sorted-key JSON text of a manifest determines it, so that a hash of texts without collisions tells manifests apart. |
| `JsonText.ReadOfPrint` | shared/catalog.py:96-103 | A compact JSON document is read back from its text whatever delimiter follows. |
| `Catalog.OnlyReachableMatters` | shared/catalog.py:405-476 | A manifest depends on the reachable components only. |
| `Catalog.AnswersWereFresh` | shared/catalog.py:491-538 | After any run of edits, lookups, invalidations and verifications a hash handed out is that of the disk at some moment since the cache was emptied; with no edit since then it is the fresh one. |
| `Catalog.SubjectCache.SubjectHash` | shared/catalog.py:499-518 | The cached lookup on the real cache is the run's lookup step; failures are not cached and only stable ids are. |
| `Catalog.SubjectCache.InvalidateSubjectCache` | shared/catalog.py:521-525 | Empties the cache for every root. |
| `Catalog.SubjectCache.VerifySubject` | shared/catalog.py:528-538 | Always answers from the disk as it is, and leaves only that answer cached. |
| `Paging.Page` | shared/record_views.py:93-148 | The growing loop returns the specified page or failure. |
| `Paging.PageIsGreatestFit` | shared/record_views.py:93-148 | A page is the longest run from its start that fits the limit and the byte budget at every step on the way, is empty only at the end, and has a cursor exactly when items are left. |
| `Paging.RefusedIffSmallestDoesNotFit` | shared/record_views.py:121-148 | A page is refused exactly when the smallest page at its start does not fit. |
| `Paging.ServedRequest` | shared/record_views.py:69-148 | A request is refused for its limit exactly outside 1 to the maximum, then for a cursor that does not decode or leads past the end; what is served starts where the cursor leads and has no more items than asked for. |
| `Paging.WalkIsComplete` | shared/record_views.py:69-148 | Following the cursors, whatever limits are sent, returns the whole sequence in order without gap or repeat, or is refused for a limit that is out of range or at an item that cannot fit on a page of its own. |
| `Paging.SessionViewsAreServed` | shared/record_views.py:75-90 | The session's cursors lead back to their index for every sequence of a plainly named view. |
| `Cursor.CursorBindsItsArguments` | shared/session_cas.py:746-833 | A cursor decodes to its index under its own reference, view and selector and under no other. |
| `Cursor.CompactIsReadBack` | shared/data_records.py:159-181 | Reading back the sorted compact JSON text of a flat object of distinct keys gives the object: strings with every escape, null, and safe natural numbers. |
| `Cursor.PayloadIsReadBack` | shared/session_cas.py:765-785 | The text inside a token is read back as the payload it was made from, for every index in the canonical range. |
| `Cursor.AcceptedIff` | shared/session_cas.py:787-833 | A token is accepted with an index exactly when it is a payload signed under the session key that binds the given reference, view and selector to that index. |
| `Cursor.CursorsFit` | shared/session_cas.py:746-785 | Every cursor a view can ask for exists exactly for safe indices and has at most 375 characters. |
| `Base64Url.DecodeOfEncode` | shared/session_cas.py:780-805 | The unpadded URL-safe alphabet is read back exactly (section 5 of RFC 4648). |
| `Base64Url.EncodedLength` | shared/session_cas.py:780-785 | The length of a token from the length of its bytes. |
| `Framing.BoundedBinaryFrameReader.ReadFrame` | shared/stdio_framing.py:68-106 | The result depends only on the bytes still pending, never on the chunks they arrive in; a raising callback loses nothing; the buffer never exceeds the limit. |
| `Framing.ReadFrames` | shared/stdio_framing.py:68-106 | Any number of calls gives the frames and errors specified over the concatenated stream. |
| `Framing.FrameInBuffer` | shared/stdio_framing.py:73-83 | A whole frame in the buffer decides the result whatever is still to come. |
| `Framing.NoFrameInBuffer` | shared/stdio_framing.py:84-92 | A buffer without LF decides the result only when it is full or the stream has ended. |
| `Framing.LineIff` | shared/stdio_framing.py:73-83 | A line is delivered exactly when its UTF-8 encoding, which holds no LF, and one LF stand first among the pending bytes and are within the limit together. |
| `Framing.FailureIff` | shared/stdio_framing.py:73-92 | Each failure of the reader and the bytes it stands for. |
| `Framing.FrameIff` | shared/stdio_framing.py:156-161 | A text is framed exactly when it holds neither CR nor LF and can be encoded; the frame is its UTF-8 bytes and one LF. |
| `Framing.ReadingUndoesWriting` | shared/stdio_framing.py:156-161 | Written frames that fit the limit are read back as exactly the texts, followed by a clean end. |
| `Discovery.ReadTokens` | shared/discovery.py:227-239 | The scanning loop returns the maximal alphanumeric runs of the normalized text. |
| `Discovery.TokensAreMaximalRuns` | shared/discovery.py:227-239 | A text is a raw token exactly when it is a maximal alphanumeric run of the normalized text, and between them the tokens hold every alphanumeric character in order. |
| `Discovery.Tokenize` | shared/discovery.py:257-273 | The loop over tokens returns the specified search terms. |
| `Discovery.FreshIsDistinctFilter` | shared/discovery.py:268-273 | Search terms are exactly the distinct tokens that are not filler, each once. |
| `Discovery.RankRecord` | shared/discovery.py:454-512 | The two loops compute the specified matches and score, None when a nonempty query touches no positive field. |
| `Discovery.HitScoreIs` | shared/discovery.py:480-512 | A hit's score is its field score and five points a matched term, less three points a term of its boundary text, and never below zero. |
| `Discovery.TermRaisesScore` | shared/discovery.py:480-505 | A further query term raises the field score by exactly the weights of the fields that have it. |
| `Discovery.PhraseRaisesScore` | shared/discovery.py:480-505 | The phrase raises the field score by exactly twice the weights of the matching fields where it stands. |
| `ContractIndex.Snapshot` | shared/discovery.py:553-567 | Records are accepted exactly when there are at most 10,000 with distinct ids; the error is the first one in record order. |
| `ContractIndex.Build` | shared/discovery.py:552-607 | The index files every component under exactly its positive terms and its facet values. |
| `ContractIndex.RankedIffPosted` | shared/discovery.py:665-670 | A nonempty query ranks a component exactly when a form of one of its terms is posted under one of its positive fields; boundary text never makes it eligible. |
| `ContractIndex.Candidates` | shared/discovery.py:653-670 | Intersecting the postings leaves exactly the components that pass OR within each facet, AND across facets, and at least one positive match. |
| `ContractIndex.CountFacet` | shared/discovery.py:515-530 | The counter gives, in value order, the number of eligible components with each value. |
| `ContractIndex.Search` | shared/discovery.py:641-690 | The indexed search returns what a plain scan over the records returns: the same hits in order of falling score and then of id, none worse than an accepted record left out, the same total and the same facet counts; limits outside 1..100 are refused. |
| `ContractIndex.ScanForgetsOrder` | shared/discovery.py:641-690 | The result does not depend on the order in which the records were listed. |
| `ContractIndex.ScanReturnsBest` | shared/discovery.py:672-690 | Of two hits the first has the higher score, or the same and the smaller id; an accepted record is missing only behind a full page of hits that score higher, or as high with a smaller id. |
| `ContractIndex.HitSplitsTerms` | shared/discovery.py:492-502 | A hit splits the query terms into those some positive field matches and the others. |
| `ContractIndex.BoundaryOnlyDemotes` | shared/discovery.py:480-505 | Boundary text never decides eligibility and lowers a score by at most three points a term. |
| `ManagedPlans.PlanHashIff` | protocol/plan.py:140-163 | Plan hashes are equal exactly for plans that agree in every field but resolution times: answers and input as canonical values, everything else outright. |
| `ManagedPlans.TimesAreNotMeaning` | protocol/plan.py:57-67 | The time at which a question was resolved is not part of the projection. |
| `ManagedPlans.ReceiptHashPins` | protocol/authorization.py:117-124 | Equal receipt hashes mean equal receipts. |
| `ManagedPlans.ApprovalHashPins` | protocol/authorization.py:150-157 | Equal approval hashes mean equal approvals, actor, time and note included. |
| `ManagedPlans.AuthorizationHashPins` | protocol/authorization.py:160-179 | Equal authorization hashes mean equal bindings. |
| `ManagedPlans.PolicyHashPins` | protocol/policy.py:70-94 | Equal policy hashes mean equal policies, rules and requirements in order. |
| `ManagedPlans.ApprovalHashIff` | protocol/authorization.py:150-157 | An approval can be hashed exactly when its texts hold no lone surrogate. |
| `PlanValidation.CheckAnswers` | shared/plan_validation.py:185-213 | One pass stops at the first confirmed answer that is not the one bound in the input and otherwise collects the unconfirmed questions in order. |
| `PlanValidation.ValidateRequiredQuestions` | shared/plan_validation.py:136-223 | The branches of the question check in the source's order. |
| `PlanValidation.PassedQuestionsAreBound` | shared/plan_validation.py:136-223 | The check passes exactly when the contract's questions are well formed, nothing undeclared is resolved, and every question is confirmed with the answer that is bound in the input. |
| `PlanValidation.ContradictionBlocks` | shared/plan_validation.py:185-213 | The first question whose confirmed answer is not the one bound in the input blocks the plan under its target field. |
| `PlanValidation.OpenQuestionsAreAsked` | shared/plan_validation.py:185-223 | The caller is asked exactly the questions without a confirmed answer, in contract order, each with its issue. |
| `PlanRefusals.PolicyRefusals` | shared/plan_validation.py:300-357 | Which condition each refusal of the policy stands for: the plan's policy hash, the packaged policy, the profile, the component. |
| `PlanRefusals.InstalledRefusals` | shared/plan_validation.py:363-423 | Which condition each refusal of the installed component stands for: version and subject, lifecycle and opt-in, contract. |
| `PlanRefusals.InputRefusals` | shared/plan_validation.py:281-297 | Behind settled questions: the first unmet requirement under its own code, then the schema, then the constraints. |
| `PlanRefusals.FirstFailureDecides` | shared/plan_validation.py:325-484 | The outcome is that of the first failing check, in the order policy, component, questions. |
| `PlanValidation.ValidatedIff` | shared/plan_validation.py:300-484 | A plan gets a receipt exactly when the packaged policy is the one it names, a rule allows its exact component, the installed component matches in version, subject and lifecycle with any required opt-in, every question is settled, every required input is present, and input and constraints pass. |
| `PlanValidation.AuthorizedIff` | shared/plan_validation.py:534-632 | Verification accepts exactly the chains whose receipt is reproduced by validating now and whose binding and approval name plan, receipt, approval and dataset by their hashes and the component outright. |
| `PlanValidation.ApprovalIff` | shared/plan_validation.py:487-502 | An approval is made exactly of a receipt that can be hashed, an actor of 1 to 160 characters and a note, if any, of 1 to 500, without lone surrogates; it names plan and receipt and holds what it was given. |
| `PlanValidation.ConstructedChainsVerify` | shared/plan_validation.py:487-524 | For a validated plan an approval can be made exactly when its actor has 1 to 160 characters and its note, if any, 1 to 500, without lone surrogates; then the binding can be made as well, and the chain verifies while the installed world is unchanged. |
| `PlanValidation.BindingPinsChain` | shared/plan_validation.py:534-632 | Chains accepted under one authorization hash hold the same receipt, approval, binding and policy, and plans that agree in every field but resolution times. |
| `PlanValidation.AcceptedBindingHasHash` | protocol/authorization.py:172-179 | The binding of every accepted chain can be hashed. |
| `PlanValidation.ChangesAreNamed` | shared/plan_validation.py:543-631 | Starting from an accepted chain, a change of component, input, policy, plan, receipt or approval is refused under the code that names it. |
| `PlanValidation.TimesDoNotMatter` | shared/plan_validation.py:325-632 | Changing only resolution times changes neither validation nor verification. |
| `Normalizer.NormalizeRow` | shared/dataset_registry.py:463-499 | One row's cells, with the shared counter raised for exactly the cells that caused an event. |
| `Normalizer.NormalizedRows` | shared/dataset_registry.py:440-509 | The loops with their counter compute the specified rows and ledger, or the first fault. |
| `Normalizer.LedgerIsExact` | shared/dataset_registry.py:504-508 | The ledger has one event for each code and column that some row caused, with the number of rows that caused it, and no other. |
| `NormalizerOutcome.LedgerCountsSource` | shared/dataset_registry.py:504-508 | The ledger counts what happened to the source's own cells: missing members, empty fields, parsed booleans, integers and numbers, and timestamps that were not canonical. |
| `NormalizerOutcome.NormalizedIff` | shared/dataset_registry.py:365-509 | A source is normalized exactly when columns and header fit, it has between one row and the limit, every row has its shape and every cell is acceptable for its column. |
| `NormalizerOutcome.RefusalIsNamed` | shared/dataset_registry.py:365-509 | A refusal names the first thing that is wrong: the columns, the header, the first bad row and in it the first bad cell, and the number of rows last. |
| `Normalizer.RankIsByteOrder` | shared/dataset_registry.py:504-508 | The order used for codes is the byte order of their names. |
| `Normalizer.LedgerPassesValidator` | shared/data_records.py:746-782 | Every ledger the normaliser produces passes the record's independent validator: unique, byte-sorted, at most 768 events, counts in 1..rows, codes matching the source kind and the column type. |
| `Normalizer.NormalizedPayloadIsValid` | shared/data_records.py:511-581 | Normalized rows form a payload that passes the payload's own validator exactly if years are printed with four digits or no timestamp of the source lies before year 1000 in UTC. |
| `Normalizer.OutputRendersSource` | shared/dataset_registry.py:172-244 | Every output cell is the source's cell of its row and column: null where nothing is there, strings and JSON values unchanged, spelled values read, timestamps denoting the same instant. |
| `Normalizer.ColumnOrderDoesNotMatter` | shared/dataset_registry.py:457-483 | Rearranging the columns of a CSV source, header and lines alike, changes neither rows nor ledger nor fault. |
| `Normalizer.NormalizingAgainChangesNothing` | shared/dataset_registry.py:172-244 | Normalized rows, given back as JSON objects, come out unchanged and without an event, under exactly the same condition on the years. |
| `CanonicalTimestamp.CanonicalIff` | shared/dataset_registry.py:140-162 | The form the normaliser answers is recognised by the validator, and is a fixed point, exactly if years are padded or the timestamp's year in UTC is at least 1000. |
| `CanonicalTimestamp.CanonicalIffFixed` | shared/data_records.py:511-517 | The validator's pattern and calendar check recognise exactly the fixed points of the padding normaliser, on every text. |
| `CanonicalTimestamp.CanonicalIffSameInstant` | shared/dataset_registry.py:140-162 | Accepted timestamps have one canonical form exactly when they denote the same instant: offsets are carried across days, months, leap years and years. |
| `CanonicalTimestamp.EarlyYearExample` | shared/dataset_registry.py:159 | Without padding, 0999-01-01T00:00:00Z is answered with 999-01-01T00:00:00Z, which the validator and the normaliser itself refuse. |
| `ProcessTree.Descendants` | shared/_posix_worker.py:243-259 | The fixed-point loop terminates with the least set that holds the root and the known pids and is closed under parent and group membership. |
| `ProcessTree.LeastTreeIsReachability` | shared/_posix_worker.py:243-259 | That set is exactly what chains of parent links reach, so it does not depend on the order of the table. |
| `ProcessTree.PosixWorkerProcess.MemoryUsage` | shared/_posix_worker.py:187-199 | A poll forgets no process, adds exactly what the table lets it reach and sums their memory. |
| `JsonPointer.ResolvePointer` | authoring/evidence_runtime.py:134-149 | The walking loop returns what following the decoded parts returns, or fails where it does. |
| `JsonPointer.ReadingUndoesPrinting` | authoring/input_validation.py:17-20 | Splitting and unescaping a printed pointer gives back the path exactly when the path is not empty (sections 3 and 4 of RFC 6901). |
| `JsonPointer.PointersIdentifyPaths` | authoring/input_validation.py:17-20 | Two locations print alike exactly when their parts do. |
| `CalendarMonths.HasDuplicates` | shared/validation.py:145-150 | For items of any kind and whatever their equality, the nested loop finds a repeat exactly when some item equals an earlier one. |
| `CalendarMonths.ConsecutiveIffCalendar` | shared/validation.py:153-168 | On valid labels the ordinal test holds exactly when each label is the calendar month after the one before. |
| `CalendarMonths.StringOrderIsCalendarOrder` | shared/validation.py:171-179 | On valid labels string order is calendar order. |
| `CalendarMonths.ConsecutiveImpliesIncreasing` | shared/validation.py:133-179 | Consecutive months are strictly increasing as strings and have no duplicates, at any length. |

## Left out

- Native providers, system calls, process launch and signals, timers and wall-clock values: they appear as parameters, as nondeterministic outcomes of a step, or not at all.
- SHA-256 and HMAC internals: SHA-256 is a collision-free function, HMAC a function with 32-byte results; unforgeability is not claimed.
- JSON parsing beyond the flat objects inside cursors, YAML parsing, Pydantic machinery and the serialized text of stored documents: readers and writers are parameters, and the source's own round-trip checks on them are modelled.
- Field patterns of records that no modelled result uses (semantic versions, lengths of labels, semantic ports, provenance fields): a record carries them as one JSON value, or as a predicate in `OperationRecords.Codec`.
- Components, charts, financial values, the constraint-expression evaluator, the CLI, release and test tooling, and the remaining views of `record_views.py`, whose pages all go through the modelled pager.
- Orphan-session cleanup, session markers beyond the one flag `close` looks at, lock files, temporary operation outputs, and the checks on the state root: they guard directories the model does not have.
- Malformed and unsupported reference texts: the store's operations take references that were already parsed.
- Symbolic links inside the store: an entry that may not be moved is the nondeterministic `moves` of a step.
- Nested member directories: a bundle is a map from relative paths to files, so empty directories inside it are not represented.
- A file that happens to exist under a component id in the working directory, and catalogs with duplicate ids: a component is looked up by id in a map.
- How the manifest members that do not mention dependencies are computed: they are JSON documents, with numbers as their text. A text with a lone surrogate, which the source cannot encode, is hashed like any other.
- Filter normalisation and its limit of 64 values per facet: filters and facet values arrive normalized and without repeats.
- An integer too large for a float in a JSON number column leaves the source as an OverflowError; the model reports it as an invalid number cell.
- Clarification texts, messages and issue order beyond code, field and question order in validation failures.
- `materialize_fixture` and the finite tables of failure codes: enumerating their few cases settles them.
- Catalog.SubjectCache.SubjectHash: does not model lookups by path or by a synthetic record, because these never touch the cache.
- SessionCas.SessionCas.OpenOperationEntry: reads the bundle once, because the two readings of one load are the subject of `SessionCasIntegrity.TwoReadings`; each reading is one step, though the source walks the directory file by file.
- SessionCas.SessionCas.StageOperationEntry: reads the stage and an adopted entry once; the second reading is the subject of `SessionCasIntegrity.PublicationReconcilesIff`.
- WorkerController.FinishedRequestHistory: the look at the work directory may raise for every request, also for one that failed before its work directory was made, where the source does not look.
- Exceptions that are no `Exception` (an interrupt while a request is cleaning up) and errors of the locks themselves.
