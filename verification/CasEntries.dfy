/** The entries of the session store and their verification (shared/session_cas.py): what a directory
    must hold before a dataset or an operation is returned from it. */
module CasEntries {
  import opened Foundations
  import opened CanonicalJson
  import opened CanonicalHash
  import opened JsonObjects
  import opened DataRecords
  import opened OperationRecords

  /** Configured ceilings in bytes. */
  datatype Limits = Limits(record: nat, payload: nat, bundle: nat, session: nat)

  /** Strict readers (parsing and field validation) and the serializers of the stored documents. */
  datatype Store = Store(
    codec: Codec, limits: Limits,
    readRecord: Bytes -> Option<DatasetRecord>, writeRecord: DatasetRecord -> Bytes,
    readPayload: Bytes -> Option<Table>, writePayload: Table -> Bytes,
    readOperation: Bytes -> Option<OperationRecord>, writeOperation: OperationRecord -> Bytes)

  /** A directory: its owner-private flag, its plain members, and its `bundle` directory if any. */
  datatype Entry = Entry(isPrivate: bool, files: map<Text, Node>, bundle: Option<BundleDirectory>)

  datatype BundleDirectory = BundleDirectory(isPrivate: bool, files: Bundle)

  datatype StoredDataset = StoredDataset(reference: Reference, record: DatasetRecord, payload: Table)

  datatype StoredOperation = StoredOperation(reference: Reference, record: OperationRecord, manifest: Manifest,
                                             manifestBytes: Bytes, members: map<Text, Bytes>)

  function RECORD(): Text {
    Lit("record.json")
  }

  function PAYLOAD(): Text {
    Lit("payload.json")
  }

  /** `_read_private` within a byte limit. */
  function ReadPrivate(files: map<Text, Node>, name: Text, maximum: nat): Option<Bytes> {
    if name in files && files[name].File? && |files[name].content| <= maximum then Some(files[name].content) else None
  }

  // ----- datasets -----

  function DatasetFiles(store: Store, record: DatasetRecord, payload: Table): Entry {
    Entry(true, map[RECORD() := File(store.writeRecord(record)), PAYLOAD() := File(store.writePayload(payload))], None)
  }

  /** A stored document that is read and printed back to the same bytes. */
  function ReadExact<T>(files: map<Text, Node>, name: Text, maximum: nat, read: Bytes -> Option<T>, write: T -> Bytes)
      : Option<T>
  {
    match ReadPrivate(files, name, maximum)
    case None => None
    case Some(bytes) =>
      match read(bytes)
      case None => None
      case Some(value) => if write(value) == bytes then Some(value) else None
  }

  /** `_load_dataset_directory`: None where the source raises. */
  function LoadDatasetDirectory(store: Store, e: Entry, reference: Reference): Option<StoredDataset> {
    if !e.isPrivate || e.bundle.Some? || e.files.Keys != {RECORD(), PAYLOAD()} then None
    else
      match ReadExact(e.files, RECORD(), store.limits.record, store.readRecord, store.writeRecord)
      case None => None
      case Some(record) =>
        match ReadExact(e.files, PAYLOAD(), store.limits.payload, store.readPayload, store.writePayload)
        case None => None
        case Some(payload) =>
          if DatasetReference(store.codec.sha256, record) == Some(reference)
             && MatchesRecord(store.codec.sha256, record, payload)
          then Some(StoredDataset(reference, record, payload)) else None
  }

  // ----- operation bundles -----

  function SizeOf(n: Node): nat {
    match n case File(content) => |content| case Unsafe => 0
  }

  /** Bytes of the listed files. */
  function BytesOf(files: map<Text, Node>, paths: seq<Text>): nat {
    if paths == [] then 0
    else (if paths[0] in files then SizeOf(files[paths[0]]) else 0) + BytesOf(files, paths[1..])
  }

  function AllBytes(files: map<Text, Node>): nat {
    BytesOf(files, SortedSet(files.Keys))
  }

  /** Every file of the entry counts. */
  function EntrySize(e: Entry): nat {
    AllBytes(e.files) + match e.bundle case None => 0 case Some(b) => AllBytes(b.files)
  }

  /** Names are portable and different on every platform. */
  predicate PortableNames(names: set<Text>) {
    && (forall a :: a in names ==> MemberKey(a).Some?)
    && (forall a, b :: a in names && b in names && MemberKey(a) == MemberKey(b) ==> a == b)
  }

  predicate CountOk(n: nat) {
    2 <= n <= 130
  }

  function MemberPaths(files: Bundle): set<Text> {
    files.Keys - {MANIFEST()}
  }

  /** The manifest and the members together. */
  function BundleBytes(files: Bundle): nat {
    (if MANIFEST() in files then SizeOf(files[MANIFEST()]) else 0) + BytesOf(files, SortedSet(MemberPaths(files)))
  }

  /** A private directory whose files have portable names, the manifest among them, that are all
      readable and together within the limit. */
  predicate ReadableBundle(store: Store, b: BundleDirectory) {
    && b.isPrivate
    && MANIFEST() in b.files
    && PortableNames(b.files.Keys)
    && CountOk(|MemberPaths(b.files)|)
    && (forall path :: path in b.files ==> b.files[path].File?)
    && BundleBytes(b.files) <= store.limits.bundle
  }

  /** Reading the listed files in order within a byte budget. */
  predicate FitsBudget(files: Bundle, paths: seq<Text>, budget: nat) {
    && (forall i :: 0 <= i < |paths| ==> paths[i] in files && files[paths[i]].File?)
    && BytesOf(files, paths) <= budget
  }

  lemma {:induction false} FitsBudgetStep(files: Bundle, paths: seq<Text>, i: nat, budget: nat)
    requires i < |paths|
    ensures FitsBudget(files, paths[i..], budget) <==>
            && ReadPrivate(files, paths[i], budget).Some?
            && FitsBudget(files, paths[i + 1..], budget - |ReadPrivate(files, paths[i], budget).value|)
  {
    assert paths[i..][1..] == paths[i + 1..];
    assert paths[i..] == [paths[i]] + paths[i + 1..];
  }

  /** The contents of the listed files. */
  function Contents(files: Bundle, paths: seq<Text>): map<Text, Bytes> {
    map path | path in paths && path in files && files[path].File? :: files[path].content
  }

  method ReadMembers(files: Bundle, paths: seq<Text>, budget: nat) returns (r: Option<map<Text, Bytes>>)
    ensures r == if FitsBudget(files, paths, budget) then Some(Contents(files, paths)) else None
  {
    var members: map<Text, Bytes> := map[];
    var remaining: nat := budget;
    ghost var fits := FitsBudget(files, paths, budget);
    assert paths[0..] == paths;
    for i := 0 to |paths|
      invariant fits <==> FitsBudget(files, paths[i..], remaining)
      invariant members == Contents(files, paths[..i])
    {
      FitsBudgetStep(files, paths, i, remaining);
      var content := ReadPrivate(files, paths[i], remaining);
      if content.None? {
        return None;
      }
      remaining := remaining - |content.value|;
      assert paths[..i + 1] == paths[..i] + [paths[i]];
      members := members[paths[i] := content.value];
    }
    assert paths[..|paths|] == paths && paths[|paths|..] == [] && paths[0..] == paths;
    r := Some(members);
  }

  /** `_read_operation_bundle`. */
  function ReadBundle(store: Store, b: BundleDirectory): Option<(Bytes, map<Text, Bytes>)> {
    if ReadableBundle(store, b) then Some((b.files[MANIFEST()].content, OperationRecords.Members(b.files))) else None
  }

  method ReadOperationBundle(store: Store, b: BundleDirectory) returns (r: Option<(Bytes, map<Text, Bytes>)>)
    ensures r == ReadBundle(store, b)
  {
    if !b.isPrivate {
      return None;
    }
    var manifest := ReadPrivate(b.files, MANIFEST(), store.limits.bundle);
    if manifest.None? || !PortableNames(b.files.Keys) || !CountOk(|MemberPaths(b.files)|) {
      return None;
    }
    var paths := SortedSet(MemberPaths(b.files));
    var members := ReadMembers(b.files, paths, store.limits.bundle - |manifest.value|);
    assert (forall i :: 0 <= i < |paths| ==> paths[i] in b.files && b.files[paths[i]].File?) <==>
           (forall path :: path in b.files ==> b.files[path].File?) by {
      AllFiles(b.files, paths);
    }
    assert Contents(b.files, paths) == OperationRecords.Members(b.files);
    r := match members case None => None case Some(m) => Some((manifest.value, m));
  }

  lemma {:induction false} AllFiles(files: Bundle, paths: seq<Text>)
    requires MANIFEST() in files && files[MANIFEST()].File?
    requires forall path :: path in paths <==> path in MemberPaths(files)
    ensures (forall i :: 0 <= i < |paths| ==> paths[i] in files && files[paths[i]].File?) <==>
            (forall path :: path in files ==> files[path].File?)
  {
    if forall i :: 0 <= i < |paths| ==> paths[i] in files && files[paths[i]].File? {
      forall path | path in files ensures files[path].File? {
        if path != MANIFEST() {
          assert path in MemberPaths(files) && path in paths;
          var i :| 0 <= i < |paths| && paths[i] == path;
        }
      }
    }
    if forall path :: path in files ==> files[path].File? {
      forall i | 0 <= i < |paths| ensures paths[i] in files && files[paths[i]].File? {
        assert paths[i] in paths;
      }
    }
  }

  // ----- operations -----

  /** The files of a bundle with the given manifest and members. */
  function BundleFiles(manifestBytes: Bytes, members: map<Text, Bytes>): map<Text, Node> {
    (map path | path in members :: File(members[path])) + map[MANIFEST() := File(manifestBytes)]
  }

  datatype Opened = Opened(record: OperationRecord, manifestBytes: Bytes, members: map<Text, Bytes>, files: Bundle)

  /** The record of an operation entry, when it is the one the reference stands for. */
  function OpenRecord(store: Store, e: Entry, reference: Reference): Option<OperationRecord> {
    if !e.isPrivate || e.bundle.None? || e.files.Keys != {RECORD()} then None
    else
      match ReadExact(e.files, RECORD(), store.limits.record, store.readOperation, store.writeOperation)
      case None => None
      case Some(record) =>
        if OperationReference(store.codec.sha256, record) != Some(reference) then None else Some(record)
  }

  /** The part of `_load_operation_directory` before reconciliation: None where the source raises. */
  function OpenOperation(store: Store, e: Entry, reference: Reference): Option<Opened> {
    match OpenRecord(store, e, reference)
    case None => None
    case Some(record) =>
      match ReadBundle(store, e.bundle.value)
      case None => None
      case Some(bytes) => Some(Opened(record, bytes.0, bytes.1, e.bundle.value.files))
  }

  lemma {:induction false} RecordIgnoresBundle(store: Store, e: Entry, reference: Reference, b: BundleDirectory)
    requires e.bundle.Some?
    ensures OpenRecord(store, e.(bundle := Some(b)), reference) == OpenRecord(store, e, reference)
  {
  }

  lemma {:induction false} OpensReadable(store: Store, e: Entry, reference: Reference, b: BundleDirectory)
    requires OpenRecord(store, e, reference).Some? && e.bundle == Some(b) && ReadableBundle(store, b)
    ensures OpenOperation(store, e, reference)
            == Some(Opened(OpenRecord(store, e, reference).value, b.files[MANIFEST()].content,
                           OperationRecords.Members(b.files), b.files))
  {
  }

  /** An entry opens as well with any other readable bundle in it. */
  lemma {:induction false} ExchangedBundle(store: Store, e: Entry, reference: Reference, b: BundleDirectory)
    requires OpenOperation(store, e, reference).Some? && ReadableBundle(store, b)
    ensures var o, p := OpenOperation(store, e, reference), OpenOperation(store, e.(bundle := Some(b)), reference);
      && e.bundle.Some? && o.value.files == e.bundle.value.files
      && p.Some? && p.value.record == o.value.record
      && p.value.manifestBytes == b.files[MANIFEST()].content && p.value.members == OperationRecords.Members(b.files)
  {
    RecordIgnoresBundle(store, e, reference, b);
    OpensReadable(store, e.(bundle := Some(b)), reference, b);
  }

  function CompanionOf(dataset: Option<StoredDataset>): Companion {
    match dataset
    case None => Companion(None, None)
    case Some(d) => Companion(Some(d.record), Some(d.payload))
  }

  function FinishOperation(store: Store, o: Opened, reference: Reference, dataset: Option<StoredDataset>)
      : Result<StoredOperation, Failure>
  {
    match Reconcile(store.codec, o.record, o.files, CompanionOf(dataset))
    case Err(failure) => Err(failure)
    case Ok(manifest) => Ok(StoredOperation(reference, o.record, manifest, o.manifestBytes, o.members))
  }

  datatype Code =
    | ReferenceNotFound
    | ReferenceScopeDenied
    | CorruptRecord
    | CacheFull
    | PublicationFailed
    | InputLimitExceeded
    | ResultLimitExceeded
    | InvalidToolRequest
    | FieldMappingInvalid
    | BindingUnsupported
    | InternalError

  function CodeOf(f: Failure): Code {
    match f
    case RecordCorrupt => CorruptRecord
    case LimitExceeded(_, _, _) => ResultLimitExceeded
    case InvalidFieldMapping => FieldMappingInvalid
    case UnsupportedBinding => BindingUnsupported
    case InternalFailure => InternalError
  }

  // ----- what is written -----

  /** The checks on a dataset before anything is written. */
  function AcceptDataset(store: Store, record: DatasetRecord, payload: Table): Result<Reference, Code> {
    if !MatchesRecord(store.codec.sha256, record, payload) then Err(PublicationFailed)
    else
      match DatasetReference(store.codec.sha256, record)
      case None => Err(PublicationFailed)
      case Some(reference) =>
        if |store.writePayload(payload)| > store.limits.payload then Err(InputLimitExceeded)
        else if |store.writeRecord(record)| > store.limits.record then Err(PublicationFailed)
        else Ok(reference)
  }

  datatype Content = Content(record: OperationRecord, manifestBytes: Bytes, members: map<Text, Bytes>)

  function ContentBytes(members: map<Text, Bytes>): nat {
    AllBytes(map path | path in members :: File(members[path]))
  }

  predicate ManifestIsExact(codec: Codec, manifestBytes: Bytes) {
    match codec.readManifest(manifestBytes)
    case None => false
    case Some(m) => codec.printManifest(m) == manifestBytes
  }

  /** `_validated_member_mapping`: the count, and portable names that all differ, from the manifest's too. */
  predicate MembersAreValid(members: map<Text, Bytes>) {
    && CountOk(|members.Keys|)
    && (forall a :: a in members ==> MemberKey(a).Some? && MemberKey(a) != MemberKey(MANIFEST()))
    && (forall a, b :: a in members && b in members && MemberKey(a) == MemberKey(b) ==> a == b)
  }

  /** The checks on an operation before anything is written. */
  function AcceptOperation(store: Store, c: Content): Result<Reference, Code> {
    if !ManifestIsExact(store.codec, c.manifestBytes) || !MembersAreValid(c.members) then Err(PublicationFailed)
    else
      match OperationReference(store.codec.sha256, c.record)
      case None => Err(PublicationFailed)
      case Some(reference) =>
        if |c.manifestBytes| + ContentBytes(c.members) > store.limits.bundle then Err(ResultLimitExceeded)
        else if |store.writeOperation(c.record)| > store.limits.record then Err(PublicationFailed)
        else Ok(reference)
  }

  /** The staged entry, if its files can be created. */
  function OperationFiles(store: Store, c: Content): Option<Entry> {
    var files := BundleFiles(c.manifestBytes, c.members);
    if NoFileIsADirectory(files) then
      Some(Entry(true, map[RECORD() := File(store.writeOperation(c.record))], Some(BundleDirectory(true, files))))
    else None
  }

  /** The bytes charged for a new entry. */
  function DatasetSize(store: Store, record: DatasetRecord, payload: Table): nat {
    |store.writePayload(payload)| + |store.writeRecord(record)|
  }

  function OperationSize(store: Store, c: Content): nat {
    |store.writeOperation(c.record)| + |c.manifestBytes| + ContentBytes(c.members)
  }

  // ----- what is written has the size that is charged -----

  function Sizes(files: map<Text, Node>): map<Text, nat> {
    map path | path in files :: SizeOf(files[path])
  }

  function ListedSizes(files: map<Text, Node>, paths: seq<Text>): map<Text, nat> {
    map path | path in paths && path in files :: SizeOf(files[path])
  }

  lemma {:induction false} ListedSizesStep(files: map<Text, Node>, paths: seq<Text>)
    requires paths != [] && NoRepeats(paths) && paths[0] in files
    ensures NoRepeats(paths[1..]) && paths[0] in ListedSizes(files, paths)
    ensures ListedSizes(files, paths)[paths[0]] == SizeOf(files[paths[0]])
    ensures ListedSizes(files, paths) - {paths[0]} == ListedSizes(files, paths[1..])
  {
    assert paths[0] !in paths[1..];
    assert paths == [paths[0]] + paths[1..];
  }

  lemma {:induction false} BytesOfIsSum(files: map<Text, Node>, paths: seq<Text>)
    requires NoRepeats(paths) && forall i :: 0 <= i < |paths| ==> paths[i] in files
    ensures BytesOf(files, paths) == Sum(ListedSizes(files, paths))
  {
    if paths != [] {
      ListedSizesStep(files, paths);
      BytesOfIsSum(files, paths[1..]);
      SumWithout(ListedSizes(files, paths), paths[0]);
    }
  }

  lemma {:induction false} AllBytesIsSum(files: map<Text, Node>)
    ensures AllBytes(files) == Sum(Sizes(files))
  {
    var paths := SortedSet(files.Keys);
    SortedSetHasNoRepeats(files.Keys);
    BytesOfIsSum(files, paths);
    assert ListedSizes(files, paths) == Sizes(files);
  }

  lemma {:induction false} SizesOfUpdate(files: map<Text, Node>, path: Text, n: Node)
    ensures Sizes(files[path := n]) == Sizes(files)[path := SizeOf(n)]
  {
  }

  /** One more file is its bytes more. */
  lemma {:induction false} OneMoreFile(files: map<Text, Node>, path: Text, n: Node)
    requires path !in files
    ensures AllBytes(files[path := n]) == AllBytes(files) + SizeOf(n)
  {
    AllBytesIsSum(files);
    AllBytesIsSum(files[path := n]);
    SizesOfUpdate(files, path, n);
    SumOfUpdate(Sizes(files), path, SizeOf(n));
  }

  lemma {:induction false} OneFile(path: Text, content: Bytes)
    ensures AllBytes(map[path := File(content)]) == |content|
  {
    OneMoreFile(map[], path, File(content));
    assert AllBytes(map[]) == 0;
  }

  /** An entry as written holds exactly the bytes that its publication charges. */
  lemma {:induction false} WrittenDatasetSize(store: Store, record: DatasetRecord, payload: Table)
    ensures EntrySize(DatasetFiles(store, record, payload)) == DatasetSize(store, record, payload)
  {
    var first: map<Text, Node> := map[RECORD() := File(store.writeRecord(record))];
    assert RECORD() != PAYLOAD() by {
      assert |RECORD()| != |PAYLOAD()|;
    }
    OneFile(RECORD(), store.writeRecord(record));
    OneMoreFile(first, PAYLOAD(), File(store.writePayload(payload)));
    assert DatasetFiles(store, record, payload).files == first[PAYLOAD() := File(store.writePayload(payload))];
  }

  lemma {:induction false} BundleFilesSize(manifestBytes: Bytes, members: map<Text, Bytes>)
    requires MANIFEST() !in members
    ensures AllBytes(BundleFiles(manifestBytes, members)) == |manifestBytes| + ContentBytes(members)
  {
    var files: map<Text, Node> := map path | path in members :: File(members[path]);
    OneMoreFile(files, MANIFEST(), File(manifestBytes));
    assert BundleFiles(manifestBytes, members) == files[MANIFEST() := File(manifestBytes)];
  }

  lemma {:induction false} WrittenOperationSize(store: Store, c: Content)
    requires AcceptOperation(store, c).Ok? && OperationFiles(store, c).Some?
    ensures EntrySize(OperationFiles(store, c).value) == OperationSize(store, c)
  {
    assert MembersAreValid(c.members);
    BundleFilesSize(c.manifestBytes, c.members);
    OneFile(RECORD(), store.writeOperation(c.record));
  }

  // ----- what verification pins -----

  /** Two verified entries under one dataset reference hold the same dataset. */
  lemma {:induction false} DatasetEntryPins(store: Store, a: Entry, b: Entry, reference: Reference)
    requires CollisionFree(store.codec.sha256)
    requires LoadDatasetDirectory(store, a, reference).Some? && LoadDatasetDirectory(store, b, reference).Some?
    ensures SameDataset(LoadDatasetDirectory(store, a, reference).value,
                        LoadDatasetDirectory(store, b, reference).value)
  {
    var x, y := LoadDatasetDirectory(store, a, reference).value, LoadDatasetDirectory(store, b, reference).value;
    SameReferenceSameDataset(store.codec.sha256, reference, x, y);
  }

  ghost predicate SameDataset(x: StoredDataset, y: StoredDataset) {
    SameRecord(x.record, y.record) && SameTable(x.payload, y.payload)
  }

  lemma {:induction false} SameReferenceSameDataset(sha256: Bytes -> Text, reference: Reference, x: StoredDataset,
                                                    y: StoredDataset)
    requires CollisionFree(sha256)
    requires DatasetReference(sha256, x.record) == Some(reference) == DatasetReference(sha256, y.record)
    requires MatchesRecord(sha256, x.record, x.payload) && MatchesRecord(sha256, y.record, y.payload)
    ensures SameDataset(x, y)
  {
    DatasetReferenceIff(sha256, x.record, y.record);
    PayloadDigestIff(sha256, x.payload, y.payload);
  }

  /** The content is a bundle that reconciles, with some dataset, with a record of this reference. */
  ghost predicate IsOperationOf(store: Store, reference: Reference, record: OperationRecord, manifestBytes: Bytes,
                                members: map<Text, Bytes>)
  {
    && OperationReference(store.codec.sha256, record) == Some(reference)
    && MANIFEST() !in members
    && exists files: Bundle, dataset: Companion ::
         files == BundleFiles(manifestBytes, members) && Reconcile(store.codec, record, files, dataset).Ok?
  }

  lemma {:induction false} ReadableIsBundleFiles(store: Store, b: BundleDirectory)
    requires ReadableBundle(store, b)
    ensures var bytes := ReadBundle(store, b).value;
      b.files == BundleFiles(bytes.0, bytes.1) && MANIFEST() !in bytes.1
  {
  }

  lemma {:induction false} FinishedIsOperation(store: Store, e: Entry, reference: Reference,
                                               dataset: Option<StoredDataset>)
    requires OpenOperation(store, e, reference).Some?
    requires FinishOperation(store, OpenOperation(store, e, reference).value, reference, dataset).Ok?
    ensures var o := OpenOperation(store, e, reference).value;
      IsOperationOf(store, reference, o.record, o.manifestBytes, o.members)
  {
    ReadableIsBundleFiles(store, e.bundle.value);
    var o := OpenOperation(store, e, reference).value;
    assert o.files == BundleFiles(o.manifestBytes, o.members);
    assert Reconcile(store.codec, o.record, o.files, CompanionOf(dataset)).Ok?;
  }

  /** Two verified contents under one operation reference are the same, byte for byte. */
  lemma {:induction false} OperationContentPins(store: Store, reference: Reference, r1: OperationRecord, b1: Bytes,
                                                m1: map<Text, Bytes>, r2: OperationRecord, b2: Bytes, m2: map<Text,
                                                Bytes>)
    requires CollisionFree(store.codec.sha256)
    requires IsOperationOf(store, reference, r1, b1, m1) && IsOperationOf(store, reference, r2, b2, m2)
    ensures b1 == b2 && m1 == m2
    ensures SameOperation(r1, r2)
    ensures r1.binding.source.Some? <==> r2.binding.source.Some?
    ensures r1.binding.source.Some? ==> r1.binding.source.value.ref == r2.binding.source.value.ref
  {
    var f1: Bundle, d1: Companion :| f1 == BundleFiles(b1, m1) && Reconcile(store.codec, r1, f1, d1).Ok?;
    var f2: Bundle, d2: Companion :| f2 == BundleFiles(b2, m2) && Reconcile(store.codec, r2, f2, d2).Ok?;
    OperationReferenceIff(store.codec.sha256, r1, r2);
    OnlyOneBundleReconciles(store.codec, r1, r2, f1, f2, d1, d2);
    BundleFilesAreInjective(b1, m1, b2, m2);
  }

  lemma {:induction false} BundleFilesAreInjective(b1: Bytes, m1: map<Text, Bytes>, b2: Bytes, m2: map<Text, Bytes>)
    requires MANIFEST() !in m1 && MANIFEST() !in m2
    requires BundleFiles(b1, m1) == BundleFiles(b2, m2)
    ensures b1 == b2 && m1 == m2
  {
    var f, g := BundleFiles(b1, m1), BundleFiles(b2, m2);
    assert f[MANIFEST()] == g[MANIFEST()];
    forall path: Text ensures path in m1 <==> path in m2 {
      assert path in f <==> path in g;
    }
    forall path: Text | path in m1 ensures m1[path] == m2[path] {
      assert f[path] == g[path];
    }
  }
}
