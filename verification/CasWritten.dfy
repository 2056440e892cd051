/** A stored entry verifies exactly when it is the entry that publishing its content writes
    (shared/session_cas.py:328-660). */
module CasWritten {
  import opened Foundations
  import opened JsonObjects
  import opened DataRecords
  import opened OperationRecords
  import opened CasEntries

  // ----- datasets -----

  /** The strict readers read back what the serializers write of these two documents. */
  predicate DatasetReadsBack(store: Store, record: DatasetRecord, payload: Table) {
    && store.readRecord(store.writeRecord(record)) == Some(record)
    && store.readPayload(store.writePayload(payload)) == Some(payload)
  }

  lemma {:induction false} FileNamesDiffer()
    ensures RECORD() != PAYLOAD()
  {
    assert |RECORD()| != |PAYLOAD()|;
  }

  lemma {:induction false} ReadExactIff<T>(files: map<Text, Node>, name: Text, maximum: nat,
                                           read: Bytes -> Option<T>, write: T -> Bytes, x: T)
    ensures ReadExact(files, name, maximum, read, write) == Some(x) <==>
              && name in files && files[name] == File(write(x)) && |write(x)| <= maximum && read(write(x)) == Some(x)
  {
  }

  lemma {:induction false} TwoFilesIff(files: map<Text, Node>, a: Node, b: Node)
    ensures files == map[RECORD() := a, PAYLOAD() := b] <==>
              files.Keys == {RECORD(), PAYLOAD()} && files[RECORD()] == a && files[PAYLOAD()] == b
  {
    FileNamesDiffer();
    var g := map[RECORD() := a, PAYLOAD() := b];
    assert g.Keys == {RECORD(), PAYLOAD()} && g[RECORD()] == a && g[PAYLOAD()] == b;
    if files.Keys == {RECORD(), PAYLOAD()} && files[RECORD()] == a && files[PAYLOAD()] == b {
      assert forall name :: name in files <==> name in g;
    }
  }

  /** A dataset is read from an entry exactly when publishing the dataset is accepted under the reference,
      the entry is the one that is written for it, and its documents are read back. */
  lemma {:induction false} DatasetEntryIff(store: Store, e: Entry, reference: Reference, x: StoredDataset)
    ensures LoadDatasetDirectory(store, e, reference) == Some(x) <==>
              && x.reference == reference
              && AcceptDataset(store, x.record, x.payload) == Ok(reference)
              && e == DatasetFiles(store, x.record, x.payload)
              && DatasetReadsBack(store, x.record, x.payload)
  {
    TwoFilesIff(e.files, File(store.writeRecord(x.record)), File(store.writePayload(x.payload)));
    ReadExactIff(e.files, RECORD(), store.limits.record, store.readRecord, store.writeRecord, x.record);
    ReadExactIff(e.files, PAYLOAD(), store.limits.payload, store.readPayload, store.writePayload, x.payload);
  }

  // ----- operations -----

  predicate OperationReadsBack(store: Store, record: OperationRecord) {
    store.readOperation(store.writeOperation(record)) == Some(record)
  }

  lemma {:induction false} DeviceInitials(d: nat)
    requires d < |DEVICES|
    ensures |DEVICES[d]| >= 3 && DEVICES[d][0] != 'm'
  {
  }

  lemma {:induction false} ManifestIsPortable()
    ensures MemberKey(MANIFEST()).Some?
  {
    var m := MANIFEST();
    assert |m| == 13;
    forall i: nat | i < |m| ensures ShapedAt(m, i) {}
    forall d, i | 0 <= d < |DEVICES| && 0 <= i <= |Fold(m)| ensures !DeviceAt(Fold(m), DEVICES[d], i) {
      DeviceInitials(d);
      assert i > 0 ==> Fold(m)[i - 1] != SLASH;
      assert i == 0 && |DEVICES[d]| <= |m| ==>
             Fold(m)[0..|DEVICES[d]|][0] == 109 && Lit(DEVICES[d])[0] == DEVICES[d][0] as int;
    }
  }

  lemma {:induction false} SameBytes(f: map<Text, Node>, g: map<Text, Node>, paths: seq<Text>)
    requires forall path :: path in paths ==> path in f && path in g && f[path] == g[path]
    ensures BytesOf(f, paths) == BytesOf(g, paths)
  {
    if paths != [] {
      assert paths[0] in paths;
      SameBytes(f, g, paths[1..]);
    }
  }

  lemma {:induction false} BundleFilesAre(manifestBytes: Bytes, members: map<Text, Bytes>, files: Bundle)
    requires MANIFEST() !in members && files == BundleFiles(manifestBytes, members)
    ensures MANIFEST() in files && files[MANIFEST()] == File(manifestBytes)
    ensures files.Keys == members.Keys + {MANIFEST()} && MemberPaths(files) == members.Keys
    ensures forall path :: path in members ==> path in files && files[path] == File(members[path])
    ensures OperationRecords.Members(files) == members
    ensures forall path :: path in files ==> files[path].File?
  {
  }

  lemma {:induction false} BundleBytesAre(manifestBytes: Bytes, members: map<Text, Bytes>, files: Bundle)
    requires MANIFEST() !in members && files == BundleFiles(manifestBytes, members)
    ensures BundleBytes(files) == |manifestBytes| + ContentBytes(members)
  {
    BundleFilesAre(manifestBytes, members, files);
    var plain: map<Text, Node> := map path | path in members :: File(members[path]);
    assert plain.Keys == members.Keys;
    SortedSetMembers(members.Keys);
    SameBytes(files, plain, SortedSet(members.Keys));
  }

  lemma {:induction false} ReadableParts(store: Store, b: BundleDirectory, names: set<Text>, size: nat)
    requires b.isPrivate && MANIFEST() in b.files && (forall path :: path in b.files ==> b.files[path].File?)
    requires MemberPaths(b.files) == names && BundleBytes(b.files) == size
    ensures ReadableBundle(store, b) <==>
              PortableNames(b.files.Keys) && CountOk(|names|) && size <= store.limits.bundle
  {
  }

  /** A directory of a manifest and members is a readable bundle exactly when the members are valid and all
      of it is within the limit. */
  lemma {:induction false} ReadableIff(store: Store, manifestBytes: Bytes, members: map<Text, Bytes>,
                                       b: BundleDirectory)
    requires MANIFEST() !in members && b.isPrivate && b.files == BundleFiles(manifestBytes, members)
    ensures ReadableBundle(store, b) <==>
              MembersAreValid(members) && |manifestBytes| + ContentBytes(members) <= store.limits.bundle
  {
    BundleFilesAre(manifestBytes, members, b.files);
    BundleBytesAre(manifestBytes, members, b.files);
    ReadableParts(store, b, members.Keys, |manifestBytes| + ContentBytes(members));
    NamesIff(members, b.files.Keys);
  }

  lemma {:induction false} SortedSetMembers(names: set<Text>)
    ensures forall n :: n in SortedSet(names) ==> n in names
  {
  }

  lemma {:induction false} NamesIff(members: map<Text, Bytes>, names: set<Text>)
    requires MANIFEST() !in members && names == members.Keys + {MANIFEST()}
    ensures PortableNames(names) && CountOk(|members.Keys|) <==> MembersAreValid(members)
  {
    ManifestIsPortable();
  }

  /** What is opened from an entry. */
  ghost predicate OpensAs(store: Store, e: Entry, reference: Reference, c: Content) {
    && OpenOperation(store, e, reference).Some?
    && var o := OpenOperation(store, e, reference).value;
       o.record == c.record && o.manifestBytes == c.manifestBytes && o.members == c.members
  }

  lemma {:induction false} OneFileIff(files: map<Text, Node>, a: Node)
    ensures files == map[RECORD() := a] <==> files.Keys == {RECORD()} && files[RECORD()] == a
  {
    var g := map[RECORD() := a];
    assert g.Keys == {RECORD()} && g[RECORD()] == a;
    if files.Keys == {RECORD()} && files[RECORD()] == a {
      assert forall name :: name in files <==> name in g;
    }
  }

  lemma {:induction false} OpenRecordIff(store: Store, e: Entry, reference: Reference, record: OperationRecord)
    ensures OpenRecord(store, e, reference) == Some(record) <==>
              && e.isPrivate && e.bundle.Some?
              && e.files == map[RECORD() := File(store.writeOperation(record))]
              && |store.writeOperation(record)| <= store.limits.record && OperationReadsBack(store, record)
              && OperationReference(store.codec.sha256, record) == Some(reference)
  {
    OneFileIff(e.files, File(store.writeOperation(record)));
    ReadExactIff(e.files, RECORD(), store.limits.record, store.readOperation, store.writeOperation, record);
  }

  lemma {:induction false} ReadBundleIff(store: Store, b: BundleDirectory, manifestBytes: Bytes,
                                         members: map<Text, Bytes>)
    ensures ReadBundle(store, b) == Some((manifestBytes, members)) <==>
              && b.isPrivate && MembersAreValid(members) && b.files == BundleFiles(manifestBytes, members)
              && |manifestBytes| + ContentBytes(members) <= store.limits.bundle
  {
    if ReadBundle(store, b) == Some((manifestBytes, members)) {
      ReadableIsBundleFiles(store, b);
      ReadableIff(store, manifestBytes, members, b);
    }
    if b.isPrivate && MembersAreValid(members) && b.files == BundleFiles(manifestBytes, members) {
      BundleFilesAre(manifestBytes, members, b.files);
      ReadableIff(store, manifestBytes, members, b);
    }
  }

  /** The checks on an operation's content before it is written, apart from the manifest's own bytes. */
  predicate IsWritable(store: Store, reference: Reference, c: Content) {
    && MembersAreValid(c.members) && |c.manifestBytes| + ContentBytes(c.members) <= store.limits.bundle
    && OperationReference(store.codec.sha256, c.record) == Some(reference)
    && |store.writeOperation(c.record)| <= store.limits.record
  }

  lemma {:induction false} AcceptedIffWritable(store: Store, reference: Reference, c: Content)
    ensures AcceptOperation(store, c) == Ok(reference) <==>
              ManifestIsExact(store.codec, c.manifestBytes) && IsWritable(store, reference, c)
  {
  }

  lemma {:induction false} FilesIff(store: Store, c: Content, e: Entry)
    ensures OperationFiles(store, c) == Some(e) <==>
              && e.isPrivate && e.bundle.Some? && e.bundle.value.isPrivate
              && e.files == map[RECORD() := File(store.writeOperation(c.record))]
              && e.bundle.value.files == BundleFiles(c.manifestBytes, c.members)
  {
  }

  lemma {:induction false} OpensIff(store: Store, e: Entry, reference: Reference, c: Content)
    ensures OpensAs(store, e, reference, c) <==>
              IsWritable(store, reference, c) && OperationFiles(store, c) == Some(e)
              && OperationReadsBack(store, c.record)
    ensures OpensAs(store, e, reference, c) ==>
              OpenOperation(store, e, reference).value.files == BundleFiles(c.manifestBytes, c.members)
  {
    OpensFrom(store, e, reference, c);
    OpenRecordIff(store, e, reference, c.record);
    FilesIff(store, c, e);
    if e.bundle.Some? {
      ReadBundleIff(store, e.bundle.value, c.manifestBytes, c.members);
    }
  }

  lemma {:induction false} OpenedIff(store: Store, e: Entry, reference: Reference, o: Opened)
    ensures OpenOperation(store, e, reference) == Some(o) <==>
              && OpenRecord(store, e, reference) == Some(o.record) && e.bundle.Some?
              && ReadBundle(store, e.bundle.value) == Some((o.manifestBytes, o.members))
              && o.files == e.bundle.value.files
  {
  }

  lemma {:induction false} OpensFrom(store: Store, e: Entry, reference: Reference, c: Content)
    ensures OpensAs(store, e, reference, c) <==>
              && OpenRecord(store, e, reference) == Some(c.record) && e.bundle.Some?
              && ReadBundle(store, e.bundle.value) == Some((c.manifestBytes, c.members))
    ensures OpensAs(store, e, reference, c) ==>
              OpenOperation(store, e, reference).value.files == e.bundle.value.files
  {
    if e.bundle.Some? {
      OpenedIff(store, e, reference, Opened(c.record, c.manifestBytes, c.members, e.bundle.value.files));
    }
    if OpenOperation(store, e, reference).Some? {
      OpenedIff(store, e, reference, OpenOperation(store, e, reference).value);
    }
  }

  /** The content's bundle is a directory that reconciles with its record and the dataset. */
  ghost predicate Reconciles(store: Store, c: Content, dataset: Option<StoredDataset>) {
    var files := BundleFiles(c.manifestBytes, c.members);
    NoFileIsADirectory(files) && Reconcile(store.codec, c.record, files, CompanionOf(dataset)).Ok?
  }

  /** The content is what the entry is found to hold. */
  ghost predicate VerifiesAs(store: Store, e: Entry, reference: Reference, c: Content, dataset: Option<StoredDataset>) {
    && OpensAs(store, e, reference, c)
    && FinishOperation(store, OpenOperation(store, e, reference).value, reference, dataset).Ok?
  }

  /** An operation's content is verified in an entry exactly when publishing it is accepted under the
      reference, the entry is the one that is written for it, the record is read back, and the bundle
      reconciles with the record and the dataset. */
  lemma {:induction false} OperationEntryIff(store: Store, e: Entry, reference: Reference, c: Content,
                                             dataset: Option<StoredDataset>)
    ensures VerifiesAs(store, e, reference, c, dataset) <==>
              && AcceptOperation(store, c) == Ok(reference)
              && OperationFiles(store, c) == Some(e)
              && OperationReadsBack(store, c.record)
              && Reconciles(store, c, dataset)
  {
    AcceptedIffWritable(store, reference, c);
    OpensIff(store, e, reference, c);
    FilesIff(store, c, e);
    if OpensAs(store, e, reference, c) {
      FinishIff(store, OpenOperation(store, e, reference).value, reference, c, dataset);
      if Reconciles(store, c, dataset) {
        ReconciledManifestIsExact(store, c, dataset);
      }
    }
  }

  lemma {:induction false} FinishIff(store: Store, o: Opened, reference: Reference, c: Content,
                                     dataset: Option<StoredDataset>)
    requires o.record == c.record && o.files == BundleFiles(c.manifestBytes, c.members)
    ensures FinishOperation(store, o, reference, dataset).Ok? <==> Reconciles(store, c, dataset)
  {
  }

  lemma {:induction false} ReconciledManifestIsExact(store: Store, c: Content, dataset: Option<StoredDataset>)
    requires Reconciles(store, c, dataset) && MANIFEST() !in c.members
    ensures ManifestIsExact(store.codec, c.manifestBytes)
  {
    var files: Bundle := BundleFiles(c.manifestBytes, c.members);
    BundleFilesAre(c.manifestBytes, c.members, files);
    ReconcileEstablishes(store.codec, c.record, files, CompanionOf(dataset));
  }
}
