/** What the session store returns, over every run, in terms of what was published. */
module SessionCasIntegrity {
  import opened Foundations
  import opened CanonicalJson
  import opened CanonicalHash
  import opened DataRecords
  import opened OperationRecords
  import opened CasEntries
  import opened SessionCas
  import opened SessionCasRuns

  ghost predicate IsDataset(store: Store, reference: Reference, d: StoredDataset) {
    && DatasetReference(store.codec.sha256, d.record) == Some(reference)
    && MatchesRecord(store.codec.sha256, d.record, d.payload)
  }

  ghost predicate IsOperation(store: Store, reference: Reference, manifestBytes: Bytes, members: map<Text, Bytes>) {
    exists record :: IsOperationOf(store, reference, record, manifestBytes, members)
  }

  ghost function MeaningOf(store: Store): Meaning {
    Meaning((r: Reference, d: StoredDataset) => IsDataset(store, r, d),
            (r: Reference, b: Bytes, m: map<Text, Bytes>) => IsOperation(store, r, b, m),
            (r: OperationRecord) => OperationReference(store.codec.sha256, r))
  }

  lemma {:induction false} MembersOfBundleFiles(manifestBytes: Bytes, members: map<Text, Bytes>, files: Bundle)
    requires MANIFEST() !in members && files == BundleFiles(manifestBytes, members)
    ensures files[MANIFEST()] == File(manifestBytes) && OperationRecords.Members(files) == members
  {
  }

  lemma {:induction false} AcceptedMembers(store: Store, c: Content)
    requires AcceptOperation(store, c).Ok?
    ensures MANIFEST() !in c.members
  {
    assert MembersAreValid(c.members);
  }

  lemma {:induction false} OpenedContent(store: Store, e: Entry, r: Reference)
    requires OpenOperation(store, e, r).Some?
    ensures var o := OpenOperation(store, e, r).value;
      && e.bundle.Some? && MANIFEST() in e.bundle.value.files && e.bundle.value.files[MANIFEST()].File?
      && o.manifestBytes == e.bundle.value.files[MANIFEST()].content
      && o.members == OperationRecords.Members(e.bundle.value.files)
  {
  }

  lemma {:induction false} FilesOpenToContent(store: Store, c: Content, e: Entry, r: Reference)
    requires AcceptOperation(store, c).Ok? && OperationFiles(store, c) == Some(e) && OpenOperation(store, e, r).Some?
    ensures var o := OpenOperation(store, e, r).value; o.manifestBytes == c.manifestBytes && o.members == c.members
  {
    OpenedContent(store, e, r);
    AcceptedMembers(store, c);
    var files := e.bundle.value.files;
    MembersOfBundleFiles(c.manifestBytes, c.members, files);
  }

  lemma {:induction false} OpenedHasReference(store: Store, e: Entry, r: Reference)
    requires OpenOperation(store, e, r).Some?
    ensures OperationReference(store.codec.sha256, OpenOperation(store, e, r).value.record) == Some(r)
  {
  }

  lemma {:induction false} AcceptedDataset(store: Store, record: DatasetRecord, payload: Table)
    requires AcceptDataset(store, record, payload).Ok?
    ensures var r := AcceptDataset(store, record, payload).value;
      r.kind == DatasetKind && IsDataset(store, r, StoredDataset(r, record, payload))
  {
  }

  lemma {:induction false} AcceptedOperation(store: Store, c: Content)
    requires AcceptOperation(store, c).Ok?
    ensures AcceptOperation(store, c).value.kind == OperationKind
    ensures OperationReference(store.codec.sha256, c.record) == Some(AcceptOperation(store, c).value)
  {
  }

  lemma {:induction false} GateAccepts(store: Store)
    ensures AcceptsSoundly(GateOf(store), MeaningOf(store))
  {
    var gate, mean := GateOf(store), MeaningOf(store);
    forall record, payload | gate.acceptDataset(record, payload).Ok?
      ensures var r := gate.acceptDataset(record, payload).value;
        r.kind == DatasetKind && mean.isDataset(r, StoredDataset(r, record, payload))
    {
      AcceptedDataset(store, record, payload);
    }
    forall c | gate.acceptOperation(c).Ok?
      ensures gate.acceptOperation(c).value.kind == OperationKind
      ensures mean.reference(c.record) == Some(gate.acceptOperation(c).value)
    {
      AcceptedOperation(store, c);
    }
  }

  lemma {:induction false} GateOpens(store: Store)
    ensures OpensSoundly(GateOf(store), MeaningOf(store))
  {
    var gate, mean := GateOf(store), MeaningOf(store);
    forall e, r | gate.openOperation(e, r).Some?
      ensures mean.reference(gate.openOperation(e, r).value.record) == Some(r)
    {
      OpenedHasReference(store, e, r);
    }
  }

  lemma {:induction false} GateFinishes(store: Store)
    ensures FinishesSoundly(GateOf(store), MeaningOf(store))
  {
    var gate, mean := GateOf(store), MeaningOf(store);
    forall e, r, d |
      gate.openOperation(e, r).Some? && gate.finishOperation(gate.openOperation(e, r).value, r, d).Ok?
      ensures mean.isOperation(r, gate.openOperation(e, r).value.manifestBytes,
                               gate.openOperation(e, r).value.members)
    {
      FinishedIsOperation(store, e, r, d);
    }
  }

  lemma {:induction false} GateWrites(store: Store)
    ensures WritesSoundly(GateOf(store))
  {
    var gate := GateOf(store);
    forall c, e, r |
      gate.acceptOperation(c) == Ok(r) && gate.operationFiles(c) == Some(e) && gate.openOperation(e, r).Some?
      ensures var o := gate.openOperation(e, r).value; o.manifestBytes == c.manifestBytes && o.members == c.members
    {
      FilesOpenToContent(store, c, e, r);
    }
  }

  lemma {:induction false} ReferencePinsSource(store: Store)
    requires CollisionFree(store.codec.sha256)
    ensures PinsSource(MeaningOf(store))
  {
    var mean := MeaningOf(store);
    forall a, b | mean.reference(a).Some? && mean.reference(a) == mean.reference(b) ensures SourceOf(a) == SourceOf(b) {
      OperationReferenceIff(store.codec.sha256, a, b);
    }
  }

  /** The store's own verification is sound. */
  lemma {:induction false} GateIsSound(store: Store)
    requires CollisionFree(store.codec.sha256)
    ensures Sound(GateOf(store), MeaningOf(store))
  {
    GateAccepts(store);
    GateOpens(store);
    GateFinishes(store);
    GateWrites(store);
    ReferencePinsSource(store);
  }

  // ----- main results -----

  /** Integrity of datasets: whatever was done to the disk, a dataset that loads is the one that was
      published under its reference, up to canonical equality. */
  lemma {:induction false} LoadedDatasetWasPublished(store: Store, disk: map<Reference, Entry>, steps: seq<(Env, Op)>,
                                                     env: Env, reference: Reference)
    requires CollisionFree(store.codec.sha256)
    ensures var h := Run(GateOf(store), disk, steps);
      var loaded := LoadDataset(GateOf(store), h.s, env, reference).r;
      loaded.Ok? ==> reference in h.datasets && SameDataset(loaded.value, h.datasets[reference])
  {
    GateIsSound(store);
    var gate, mean := GateOf(store), MeaningOf(store);
    RunHasInv(gate, mean, disk, steps);
    var h := Run(gate, disk, steps);
    var loaded := LoadDataset(gate, h.s, env, reference).r;
    if loaded.Ok? {
      LoadedAndPublishedDataset(gate, mean, h, env, reference);
      SameReferenceSameDataset(store.codec.sha256, reference, loaded.value, h.datasets[reference]);
    }
  }

  lemma {:induction false} OperationContentIsUnique(store: Store, r: Reference, b1: Bytes, m1: map<Text, Bytes>,
                                                    b2: Bytes, m2: map<Text, Bytes>)
    requires CollisionFree(store.codec.sha256)
    requires IsOperation(store, r, b1, m1) && IsOperation(store, r, b2, m2)
    ensures b1 == b2 && m1 == m2
  {
    var r1 :| IsOperationOf(store, r, r1, b1, m1);
    var r2 :| IsOperationOf(store, r, r2, b2, m2);
    OperationContentPins(store, r, r1, b1, m1, r2, b2, m2);
  }

  lemma {:induction false} SameStoredOperation(store: Store, reference: Reference, stored: StoredOperation, c: Content)
    requires CollisionFree(store.codec.sha256)
    requires IsOperation(store, reference, stored.manifestBytes, stored.members)
    requires IsOperation(store, reference, c.manifestBytes, c.members)
    requires OperationReference(store.codec.sha256, stored.record) == Some(reference)
    requires OperationReference(store.codec.sha256, c.record) == Some(reference)
    ensures stored.manifestBytes == c.manifestBytes && stored.members == c.members
    ensures SameOperation(stored.record, c.record)
  {
    OperationContentIsUnique(store, reference, stored.manifestBytes, stored.members, c.manifestBytes, c.members);
    OperationReferenceIff(store.codec.sha256, stored.record, c.record);
  }

  /** Integrity of operations: an operation that loads has, byte for byte, the manifest and the members
      that were published under its reference, and a canonically equal record. */
  lemma {:induction false} LoadedOperationWasPublished(store: Store, disk: map<Reference, Entry>, steps: seq<(Env, Op)>,
                                                       env: Env, reference: Reference)
    requires CollisionFree(store.codec.sha256)
    ensures var h := Run(GateOf(store), disk, steps);
      var loaded := LoadOperation(GateOf(store), h.s, env, reference).r;
      loaded.Ok? ==>
        && reference in h.operations
        && loaded.value.manifestBytes == h.operations[reference].manifestBytes
        && loaded.value.members == h.operations[reference].members
        && SameOperation(loaded.value.record, h.operations[reference].record)
  {
    GateIsSound(store);
    var gate, mean := GateOf(store), MeaningOf(store);
    RunHasInv(gate, mean, disk, steps);
    var h := Run(gate, disk, steps);
    if LoadOperation(gate, h.s, env, reference).r.Ok? {
      LoadedAndPublishedOperation(gate, mean, h, env, reference);
      SameStoredOperation(store, reference, LoadOperation(gate, h.s, env, reference).r.value, h.operations[reference]);
    }
  }

  lemma {:induction false} RereadIsReconciled(store: Store, o: Opened, second: Bundle, reference: Reference,
                                              dataset: Option<StoredDataset>, stored: StoredOperation)
    requires GateOf(store).finishOperation(o.(files := second), reference, dataset) == Ok(stored)
    ensures stored.manifestBytes == o.manifestBytes && stored.members == o.members
    ensures Reconcile(store.codec, o.record, second, CompanionOf(dataset)).Ok?
  {
  }

  lemma {:induction false} ReconciledIsPublished(store: Store, reference: Reference, record: OperationRecord,
                                                 second: Bundle,
                                                 dataset: Companion, c: Content)
    requires CollisionFree(store.codec.sha256)
    requires OperationReference(store.codec.sha256, record) == Some(reference)
    requires Reconcile(store.codec, record, second, dataset).Ok?
    requires IsOperation(store, reference, c.manifestBytes, c.members)
    ensures MANIFEST() !in c.members && second == BundleFiles(c.manifestBytes, c.members)
  {
    var r :| IsOperationOf(store, reference, r, c.manifestBytes, c.members);
    var files: Bundle, d: Companion :|
      files == BundleFiles(c.manifestBytes, c.members) && Reconcile(store.codec, r, files, d).Ok?;
    OperationReferenceIff(store.codec.sha256, record, r);
    OnlyOneBundleReconciles(store.codec, record, r, second, files, dataset, d);
  }

  /** A load reads the bundle twice, and what it returns comes from the first reading while the second
      is the one it verifies. Whatever the disk holds at either reading, a load that succeeds has seen
      the published bundle at the second, and it returns the published bytes exactly if both readings
      saw the same. */
  lemma {:induction false} TwoReadings(store: Store, disk: map<Reference, Entry>, steps: seq<(Env, Op)>, env: Env,
                                       reference: Reference, second: Entry -> Bundle)
    requires CollisionFree(store.codec.sha256)
    ensures var h := Run(GateOf(store), disk, steps);
      var loaded := LoadOperation(Rereading(GateOf(store), second), h.s, env, reference).r;
      loaded.Ok? ==>
        && reference in h.operations && reference in h.s.disk && h.s.disk[reference].bundle.Some?
        && var e, c := h.s.disk[reference], h.operations[reference];
           && second(e) == BundleFiles(c.manifestBytes, c.members)
           && (loaded.value.manifestBytes == c.manifestBytes && loaded.value.members == c.members
               <==> e.bundle.value.files == second(e))
  {
    GateIsSound(store);
    var gate, mean := GateOf(store), MeaningOf(store);
    RunHasInv(gate, mean, disk, steps);
    var h := Run(gate, disk, steps);
    if LoadOperation(Rereading(gate, second), h.s, env, reference).r.Ok? {
      var dataset := RereadLoad(gate, h.s, env, reference, second);
      var stored := LoadOperation(Rereading(gate, second), h.s, env, reference).r.value;
      var e, c := h.s.disk[reference], h.operations[reference];
      var o := gate.openOperation(e, reference).value;
      RereadIsReconciled(store, o, second(e), reference, dataset, stored);
      assert IsContent(mean, reference, c);
      TwoReadingsOf(store, e, reference, second(e), CompanionOf(dataset), c);
    }
  }

  lemma {:induction false} StoreReconcilesFiles(store: Store)
    ensures ReconcilesFiles(GateOf(store))
  {
  }

  /** The readings do come apart: put any other readable bundle under a reference that loads, and let the
      old one be back at the second reading; the load succeeds and returns the other bundle's bytes. */
  lemma {:induction false} StaleReadSucceeds(store: Store, s: State, env: Env, reference: Reference, b: BundleDirectory)
    requires CollisionFree(store.codec.sha256) && ReadableBundle(store, b)
    requires LoadOperation(GateOf(store), s, env, reference).r.Ok?
    ensures reference in s.disk && s.disk[reference].bundle.Some?
    ensures var e := s.disk[reference];
      var exchanged := s.(disk := s.disk[reference := e.(bundle := Some(b))]);
      var loaded :=
        LoadOperation(Rereading(GateOf(store), (x: Entry) => e.bundle.value.files), exchanged, env, reference).r;
      && loaded.Ok?
      && loaded.value.manifestBytes == b.files[MANIFEST()].content
      && loaded.value.members == OperationRecords.Members(b.files)
  {
    GateIsSound(store);
    StoreReconcilesFiles(store);
    var e := s.disk[reference];
    ExchangedBundle(store, e, reference, b);
    ExchangedEntryLoads(GateOf(store), MeaningOf(store), s, env, reference, e.(bundle := Some(b)),
                        (x: Entry) => e.bundle.value.files);
  }

  /** A publication registers the content it was given, and has reconciled what its second reading of
      the stage, or of the entry found at the destination, saw: the content is one that reconciles under
      its reference exactly if the two readings agree. */
  lemma {:induction false} PublicationReconcilesIff(store: Store, s: State, env: Env, c: Content,
                                                    second: Entry -> Bundle)
    requires CollisionFree(store.codec.sha256)
    requires PublishOperation(Rereading(GateOf(store), second), s, env, c).r.Ok?
    ensures var r := PublishOperation(Rereading(GateOf(store), second), s, env, c).r.value;
      var e := if r in s.disk then Some(s.disk[r]) else OperationFiles(store, c);
      && e.Some? && e.value.bundle.Some?
      && e.value.bundle.value.files == BundleFiles(c.manifestBytes, c.members)
      && (IsOperation(store, r, c.manifestBytes, c.members) <==> second(e.value) == e.value.bundle.value.files)
  {
    var gate := GateOf(store);
    var dataset, e, stored := RereadPublication(gate, s, env, c, second);
    var r := gate.acceptOperation(c).value;
    var o := gate.openOperation(e, r).value;
    RereadIsReconciled(store, o, second(e), r, dataset, stored);
    if r !in s.disk {
      FilesOpenToContent(store, c, e, r);
    }
    ReconciledIff(store, e, r, second(e), CompanionOf(dataset), c);
  }

  lemma {:induction false} ReconciledIff(store: Store, e: Entry, reference: Reference, second: Bundle,
                                         dataset: Companion, c: Content)
    requires CollisionFree(store.codec.sha256) && OpenOperation(store, e, reference).Some?
    requires var o := OpenOperation(store, e, reference).value;
      && o.manifestBytes == c.manifestBytes && o.members == c.members
      && Reconcile(store.codec, o.record, second, dataset).Ok?
    ensures e.bundle.Some? && e.bundle.value.files == BundleFiles(c.manifestBytes, c.members)
    ensures IsOperation(store, reference, c.manifestBytes, c.members) <==> second == e.bundle.value.files
  {
    var o := OpenOperation(store, e, reference).value;
    OpenedHasReference(store, e, reference);
    ReadableIsBundleFiles(store, e.bundle.value);
    if IsOperation(store, reference, c.manifestBytes, c.members) {
      ReconciledIsPublished(store, reference, o.record, second, dataset, c);
    }
    if second == e.bundle.value.files {
      assert IsOperationOf(store, reference, o.record, c.manifestBytes, c.members);
    }
  }

  /** The same of one entry. */
  lemma {:induction false} TwoReadingsOf(store: Store, e: Entry, reference: Reference, second: Bundle,
                                         dataset: Companion,
                                         c: Content)
    requires CollisionFree(store.codec.sha256) && OpenOperation(store, e, reference).Some?
    requires Reconcile(store.codec, OpenOperation(store, e, reference).value.record, second, dataset).Ok?
    requires IsOperation(store, reference, c.manifestBytes, c.members)
    ensures var o := OpenOperation(store, e, reference).value;
      && e.bundle.Some? && second == BundleFiles(c.manifestBytes, c.members)
      && (o.manifestBytes == c.manifestBytes && o.members == c.members <==> e.bundle.value.files == second)
  {
    var o := OpenOperation(store, e, reference).value;
    OpenedHasReference(store, e, reference);
    ReconciledIsPublished(store, reference, o.record, second, dataset, c);
    ReadableIsBundleFiles(store, e.bundle.value);
    if e.bundle.value.files == second {
      BundleFilesAreInjective(o.manifestBytes, o.members, c.manifestBytes, c.members);
    }
  }

  /** What the store writes has the size it charges. */
  lemma {:induction false} GateIsSized(store: Store)
    ensures Sized(GateOf(store))
  {
    var gate := GateOf(store);
    forall record, payload
      ensures gate.entrySize(gate.datasetFiles(record, payload)) == gate.datasetSize(record, payload)
    {
      WrittenDatasetSize(store, record, payload);
    }
    forall c | gate.acceptOperation(c).Ok? && gate.operationFiles(c).Some?
      ensures gate.entrySize(gate.operationFiles(c).value) == gate.operationSize(c)
    {
      WrittenOperationSize(store, c);
    }
  }

  /** Quota: in an open session the used bytes are the charges of the registered references, one
      each, within the limit; a charge is the size of what was staged, or of the entry that was found. */
  lemma {:induction false} UsedBytesAreCharged(store: Store, disk: map<Reference, Entry>, steps: seq<(Env, Op)>)
    requires CollisionFree(store.codec.sha256)
    ensures var h := Run(GateOf(store), disk, steps);
      !h.s.closed ==>
        h.charges.Keys == h.s.references && h.s.used == Sum(h.charges) && h.s.used <= store.limits.session
  {
    GateIsSound(store);
    RunHasInv(GateOf(store), MeaningOf(store), disk, steps);
  }

  /** While nobody else touches the entries and none was corrupt, the used bytes are exactly the bytes
      of the registered entries on the disk. */
  lemma {:induction false} UsedBytesAreStored(store: Store, disk: map<Reference, Entry>, steps: seq<(Env, Op)>)
    requires CollisionFree(store.codec.sha256) && RunIsUndisturbed(GateOf(store), disk, steps)
    ensures var s := Run(GateOf(store), disk, steps).s;
      !s.closed && s.references !! s.corrupt ==>
        && s.references <= s.disk.Keys
        && s.used == Sum(map r | r in s.references && r in s.disk :: EntrySize(s.disk[r]))
  {
    GateIsSound(store);
    GateIsSized(store);
    var gate := GateOf(store);
    UsedIsStored(gate, MeaningOf(store), disk, steps);
    var s := Run(gate, disk, steps).s;
    assert (map r | r in s.references && r in s.disk :: gate.entrySize(s.disk[r]))
           == (map r | r in s.references && r in s.disk :: EntrySize(s.disk[r]));
  }

  /** Closure: the dataset behind every registered operation is registered. */
  lemma {:induction false} SourcesAreRegistered(store: Store, disk: map<Reference, Entry>, steps: seq<(Env, Op)>,
                                                reference: Reference)
    requires CollisionFree(store.codec.sha256)
    ensures var h := Run(GateOf(store), disk, steps);
      reference in h.s.references && reference.kind == OperationKind ==>
        reference in h.operations && SourceIsRegistered(h.operations[reference].record, h.s.references)
  {
    GateIsSound(store);
    RunHasInv(GateOf(store), MeaningOf(store), disk, steps);
  }

  /** A dataset just published loads again while its entry is untouched. */
  lemma {:induction false} PublishThenLoad(store: Store, s: State, env: Env, later: Env, record: DatasetRecord,
                                           payload: Table)
    requires CollisionFree(store.codec.sha256)
    requires PublishDataset(GateOf(store), s, env, record, payload).r.Ok?
    ensures var step := PublishDataset(GateOf(store), s, env, record, payload);
      var loaded := LoadDataset(GateOf(store), step.s, later, step.r.value);
      loaded.r.Ok? && loaded.s == step.s && SameDataset(loaded.r.value, StoredDataset(step.r.value, record, payload))
  {
    GateIsSound(store);
    var gate, mean := GateOf(store), MeaningOf(store);
    PublishedDatasetLoads(gate, mean, s, env, later, record, payload);
    var step := PublishDataset(gate, s, env, record, payload);
    SameReferenceSameDataset(store.codec.sha256, step.r.value, LoadDataset(gate, step.s, later, step.r.value).r.value,
                             StoredDataset(step.r.value, record, payload));
  }

  /** An operation just published loads again while the disk is untouched, byte for byte. */
  lemma {:induction false} PublishThenLoadOperation(store: Store, s: State, env: Env, later: Env, c: Content)
    requires CollisionFree(store.codec.sha256)
    requires PublishOperation(GateOf(store), s, env, c).r.Ok?
    ensures var step := PublishOperation(GateOf(store), s, env, c);
      var loaded := LoadOperation(GateOf(store), step.s, later, step.r.value);
      && loaded.r.Ok? && loaded.s == step.s
      && loaded.r.value.manifestBytes == c.manifestBytes && loaded.r.value.members == c.members
  {
    GateIsSound(store);
    var gate, mean := GateOf(store), MeaningOf(store);
    PublishedOperationLoads(gate, mean, s, env, later, c);
    var step := PublishOperation(gate, s, env, c);
    var stored := LoadOperation(gate, step.s, later, step.r.value).r.value;
    OperationContentIsUnique(store, step.r.value, stored.manifestBytes, stored.members, c.manifestBytes, c.members);
  }
}
