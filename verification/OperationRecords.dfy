/** Operation records derived from portable bundles (shared/operation_records.py): every member is
    read, bounded and hashed, and a stored record is accepted only if it can be derived again. */
module OperationRecords {
  import opened Foundations
  import opened CanonicalJson
  import opened CanonicalHash
  import opened JsonObjects
  import opened DataRecords

  const MAX_NORMALIZED_RESULT_BYTES: nat := 64 * 1024 * 1024
  const MAX_ARTIFACT_BYTES: nat := 5 * 1024 * 1024
  const MAX_OPERATION_ARTIFACTS: nat := 128
  const MAX_OPERATION_BUNDLE_BYTES: nat := 128 * 1024 * 1024
  const MAX_RESULT_TOP_LEVEL_FIELDS: nat := 256

  datatype Limit =
    | OperationArtifacts
    | OperationBundleBytes
    | NormalizedResultMemberBytes
    | ArtifactDecodedBytes
    | ResultTopLevelFields

  datatype Failure =
    | RecordCorrupt
    | LimitExceeded(limit: Limit, maximum: nat, actual: nat)
    | InvalidFieldMapping
    | UnsupportedBinding
    | InternalFailure

  // ----- portable member paths (protocol/operation.py) -----

  predicate WordCharacter(c: int) {
    48 <= c <= 57 || 65 <= c <= 90 || 97 <= c <= 122 || c == 95 || c == 45
  }

  const DOT: CodePoint := 46
  const SLASH: CodePoint := 47

  predicate ShapedAt(path: Text, i: nat)
    requires i < |path|
  {
    || WordCharacter(path[i])
    || ((path[i] == DOT || path[i] == SLASH)
        && 0 < i < |path| - 1 && WordCharacter(path[i - 1]) && WordCharacter(path[i + 1]))
  }

  /** Nonempty runs of word characters with single dots and slashes between them. */
  predicate PathShaped(path: Text) {
    1 <= |path| <= 512 && forall i: nat :: i < |path| ==> ShapedAt(path, i)
  }

  function FoldCharacter(c: CodePoint): CodePoint {
    if 65 <= c <= 90 then c + 32 else c
  }

  function Fold(path: Text): (folded: Text)
    ensures |folded| == |path|
  {
    seq(|path|, i requires 0 <= i < |path| => FoldCharacter(path[i]))
  }

  const DEVICES: seq<string> := [
    "con", "prn", "aux", "nul", "com1", "com2", "com3", "com4", "com5", "com6", "com7", "com8", "com9",
    "lpt1", "lpt2", "lpt3", "lpt4", "lpt5", "lpt6", "lpt7", "lpt8", "lpt9"]

  predicate DeviceAt(folded: Text, device: string, i: nat) {
    && i + |device| <= |folded|
    && (i == 0 || folded[i - 1] == SLASH)
    && folded[i..i + |device|] == Lit(device)
    && (i + |device| == |folded| || folded[i + |device|] in {DOT, SLASH})
  }

  /** Some segment is a reserved device name up to its first dot. */
  predicate NamesDevice(folded: Text) {
    exists d, i :: 0 <= d < |DEVICES| && 0 <= i <= |folded| && DeviceAt(folded, DEVICES[d], i)
  }

  /** `portable_member_key`. */
  function MemberKey(path: Text): Option<Text> {
    if !PathShaped(path) || NamesDevice(Fold(path)) then None else Some(Fold(path))
  }

  // ----- bundles -----

  datatype Node = File(content: Bytes) | Unsafe

  predicate NoFileIsADirectory(files: map<Text, Node>) {
    forall p, q :: p in files && q in files ==> !(p + [SLASH] <= q)
  }

  /** A directory: the files below it by relative path. No file is also a directory. */
  type Bundle = b: map<Text, Node> | NoFileIsADirectory(b) witness map[]

  function FirstSegment(path: Text): Text {
    if path == [] || path[0] == SLASH then [] else [path[0]] + FirstSegment(path[1..])
  }

  /** The names `iterdir` lists. */
  function TopNames(bundle: Bundle): set<Text> {
    set path | path in bundle :: FirstSegment(path)
  }

  lemma {:induction false} FirstSegmentIsPrefix(path: Text)
    ensures FirstSegment(path) == path || FirstSegment(path) + [SLASH] <= path
  {
    if path != [] && path[0] != SLASH {
      FirstSegmentIsPrefix(path[1..]);
      assert path == [path[0]] + path[1..];
    }
  }

  function MANIFEST(): Text {
    Lit("manifest.json")
  }

  function ReadBounded(bundle: Bundle, path: Text, maximum: nat, limit: Limit): Result<Bytes, Failure> {
    if path !in bundle || bundle[path].Unsafe? then Err(RecordCorrupt)
    else if |bundle[path].content| > maximum then Err(LimitExceeded(limit, maximum, |bundle[path].content|))
    else Ok(bundle[path].content)
  }

  // ----- manifests and the functions a record is taken with -----

  datatype FileDigest = FileDigest(path: Text, sha256: Text)

  datatype Artifact = Artifact(file: FileDigest, renderer: Renderer, details: Value)

  datatype Manifest = Manifest(head: Head, input: FileDigest, result: FileDigest, artifacts: seq<Artifact>,
                               provenance: Value, requestInput: Value)

  /** SHA-256, the manifest's exact serialization and its strict validating reader, the number of
      top-level fields of a result object, and the version patterns a record's head must meet. */
  datatype Codec = Codec(sha256: Bytes -> Text, printManifest: Manifest -> Bytes,
                         readManifest: Bytes -> Option<Manifest>,
                         resultFields: Bytes -> Option<nat>, headOk: (Head, seq<Renderer>) -> bool)

  datatype Declared = Declared(kind: MemberKind, file: FileDigest)

  function ArtifactFiles(artifacts: seq<Artifact>): seq<Declared> {
    seq(|artifacts|, i requires 0 <= i < |artifacts| => Declared(ArtifactMember, artifacts[i].file))
  }

  function DeclaredMembers(m: Manifest): seq<Declared> {
    [Declared(NormalizedInput, m.input), Declared(ResultMember, m.result)] + ArtifactFiles(m.artifacts)
  }

  function ExpectedNames(m: Manifest): seq<Text> {
    [MANIFEST()]
    + seq(|DeclaredMembers(m)|, i requires 0 <= i < |DeclaredMembers(m)| => DeclaredMembers(m)[i].file.path)
  }

  function MaximumOf(kind: MemberKind): nat {
    match kind
    case NormalizedInput => MAX_OPERATION_BUNDLE_BYTES
    case ResultMember => MAX_NORMALIZED_RESULT_BYTES
    case ArtifactMember => MAX_ARTIFACT_BYTES
  }

  function LimitOf(kind: MemberKind): Limit {
    match kind
    case NormalizedInput => OperationBundleBytes
    case ResultMember => NormalizedResultMemberBytes
    case ArtifactMember => ArtifactDecodedBytes
  }

  function ExpectedNameSet(m: Manifest): set<Text> {
    set name | name in ExpectedNames(m)
  }

  /** The expected names are portable and pairwise different on every platform, and they are exactly
      the names in the directory. */
  predicate NamesMatch(m: Manifest, bundle: Bundle) {
    var expected, actual := ExpectedNames(m), TopNames(bundle);
    && (forall i :: 0 <= i < |expected| ==> MemberKey(expected[i]).Some?)
    && (forall name :: name in actual ==> MemberKey(name).Some?)
    && (forall i, j :: 0 <= i < j < |expected| ==> MemberKey(expected[i]) != MemberKey(expected[j]))
    && (forall a, b :: a in actual && b in actual && MemberKey(a) == MemberKey(b) ==> a == b)
    && actual == ExpectedNameSet(m)
  }

  // ----- reading the declared members -----

  /** Read, bound and hash one declared file. */
  function CheckMember(codec: Codec, bundle: Bundle, d: Declared): Result<OperationMember, Failure> {
    match ReadBounded(bundle, d.file.path, MaximumOf(d.kind), LimitOf(d.kind))
    case Err(failure) => Err(failure)
    case Ok(content) =>
      if codec.sha256(content) != d.file.sha256 then Err(RecordCorrupt)
      else Ok(OperationMember(d.kind, d.file.path, d.file.sha256, |content|))
  }

  datatype Collected = Collected(members: seq<OperationMember>, total: nat)

  /** The members read so far and their bytes, extended by the remaining declared ones. */
  function Collect(codec: Codec, bundle: Bundle, declared: seq<Declared>,
                   sofar: Collected): Result<Collected, Failure> {
    if declared == [] then Ok(sofar)
    else
      match CheckMember(codec, bundle, declared[0])
      case Err(failure) => Err(failure)
      case Ok(m) => Collect(codec, bundle, declared[1..], Collected(sofar.members + [m], sofar.total + m.size))
  }

  method CollectMembers(codec: Codec, bundle: Bundle, declared: seq<Declared>, manifestBytes: nat)
      returns (r: Result<Collected, Failure>)
    ensures r == Collect(codec, bundle, declared, Collected([], manifestBytes))
  {
    var members: seq<OperationMember> := [];
    var total: nat := manifestBytes;
    for i := 0 to |declared|
      invariant Collect(codec, bundle, declared, Collected([], manifestBytes))
                == Collect(codec, bundle, declared[i..], Collected(members, total))
    {
      assert declared[i..][1..] == declared[i + 1..];
      var member := CheckMember(codec, bundle, declared[i]);
      if member.Err? {
        return Err(member.error);
      }
      members := members + [member.value];
      total := total + member.value.size;
    }
    r := Ok(Collected(members, total));
  }

  ghost predicate Holds(codec: Codec, bundle: Bundle, d: Declared) {
    && d.file.path in bundle && bundle[d.file.path].File?
    && |bundle[d.file.path].content| <= MaximumOf(d.kind)
    && codec.sha256(bundle[d.file.path].content) == d.file.sha256
  }

  function MemberOf(bundle: Bundle, d: Declared): OperationMember {
    OperationMember(d.kind, d.file.path, d.file.sha256,
                    if d.file.path in bundle && bundle[d.file.path].File? then |bundle[d.file.path].content| else 0)
  }

  lemma {:induction false} CheckMemberIff(codec: Codec, bundle: Bundle, d: Declared)
    ensures CheckMember(codec, bundle, d).Ok? <==> Holds(codec, bundle, d)
    ensures Holds(codec, bundle, d) ==> CheckMember(codec, bundle, d) == Ok(MemberOf(bundle, d))
  {
  }

  function MembersOf(bundle: Bundle, declared: seq<Declared>): (members: seq<OperationMember>)
    ensures |members| == |declared|
    ensures forall i :: 0 <= i < |declared| ==> members[i] == MemberOf(bundle, declared[i])
  {
    if declared == [] then [] else [MemberOf(bundle, declared[0])] + MembersOf(bundle, declared[1..])
  }

  function TotalBytes(bundle: Bundle, declared: seq<Declared>): nat {
    if declared == [] then 0 else MemberOf(bundle, declared[0]).size + TotalBytes(bundle, declared[1..])
  }

  ghost predicate AllHold(codec: Codec, bundle: Bundle, declared: seq<Declared>) {
    forall i :: 0 <= i < |declared| ==> Holds(codec, bundle, declared[i])
  }

  /** Reading succeeds exactly when every declared file is there, within its limit, with its digest;
      the members are then the declared ones with their true sizes. */
  lemma {:induction false} CollectIff(codec: Codec, bundle: Bundle, declared: seq<Declared>, sofar: Collected)
    ensures Collect(codec, bundle, declared, sofar).Ok? <==> AllHold(codec, bundle, declared)
    ensures AllHold(codec, bundle, declared) ==>
              Collect(codec, bundle, declared, sofar)
              == Ok(Collected(sofar.members + MembersOf(bundle, declared), sofar.total + TotalBytes(bundle, declared)))
    decreases |declared|
  {
    if declared == [] {
      assert sofar.members + MembersOf(bundle, declared) == sofar.members;
    } else {
      CheckMemberIff(codec, bundle, declared[0]);
      if Holds(codec, bundle, declared[0]) {
        var m := MemberOf(bundle, declared[0]);
        var next := Collected(sofar.members + [m], sofar.total + m.size);
        CollectIff(codec, bundle, declared[1..], next);
        assert next.members + MembersOf(bundle, declared[1..]) == sofar.members + MembersOf(bundle, declared);
      }
      AllHoldStep(codec, bundle, declared);
    }
  }

  lemma {:induction false} AllHoldStep(codec: Codec, bundle: Bundle, declared: seq<Declared>)
    requires declared != []
    ensures AllHold(codec, bundle, declared) <==>
              Holds(codec, bundle, declared[0]) && AllHold(codec, bundle, declared[1..])
  {
    assert declared == [declared[0]] + declared[1..];
  }

  // ----- the record -----

  function Rank(kind: MemberKind): nat {
    match kind case NormalizedInput => 0 case ResultMember => 1 case ArtifactMember => 2
  }

  predicate MemberLess(a: OperationMember, b: OperationMember) {
    Rank(a.kind) < Rank(b.kind) || (a.kind == b.kind && Less(a.path, b.path))
  }

  predicate RendererLess(a: Renderer, b: Renderer) {
    Less(a.name, b.name) || (a.name == b.name && Less(a.version, b.version))
  }

  function Distinct(s: seq<Renderer>): (r: seq<Renderer>)
    ensures forall x :: x in r <==> x in s
    ensures |r| <= |s|
    ensures forall i, j :: 0 <= i < j < |r| ==> r[i] != r[j]
  {
    if s == [] then []
    else
      assert s == [s[0]] + s[1..];
      if s[0] in s[1..] then Distinct(s[1..]) else [s[0]] + Distinct(s[1..])
  }

  function Renderers(artifacts: seq<Artifact>): seq<Renderer> {
    Sort(RendererLess, Distinct(seq(|artifacts|, i requires 0 <= i < |artifacts| => artifacts[i].renderer)))
  }

  function CountKind(members: seq<OperationMember>, kind: MemberKind): nat {
    if members == [] then 0 else (if members[0].kind == kind then 1 else 0) + CountKind(members[1..], kind)
  }

  /** `OperationRecordV1._validate_record` and its field bounds, but for the version patterns. */
  ghost predicate IsConsistent(r: OperationRecord) {
    && 2 <= |r.members| <= 130
    && CountKind(r.members, NormalizedInput) == 1
    && CountKind(r.members, ResultMember) == 1
    && CountKind(r.members, ArtifactMember) <= MAX_OPERATION_ARTIFACTS
    && (forall i :: 0 <= i < |r.members| ==>
          MemberKey(r.members[i].path).Some? && MemberKey(r.members[i].path) != MemberKey(MANIFEST()))
    && PathsDiffer(r.members)
    && InCanonicalOrder(r.members)
    && |r.renderers| <= 128
    && (forall i, j :: 0 <= i < j < |r.renderers| ==>
          || Less(r.renderers[i].name, r.renderers[j].name)
          || (r.renderers[i].name == r.renderers[j].name && Less(r.renderers[i].version, r.renderers[j].version)))
  }

  /** The input, the result, and then the artifacts in the order of their paths' characters. */
  ghost predicate InCanonicalOrder(members: seq<OperationMember>) {
    && |members| >= 2 && members[0].kind == NormalizedInput && members[1].kind == ResultMember
    && (forall i :: 2 <= i < |members| ==> members[i].kind == ArtifactMember)
    && (forall i, j :: 2 <= i < j < |members| ==> Less(members[i].path, members[j].path))
  }

  /** Compatibility evidence goes with operation sources only. */
  predicate CompatibilityOk(r: OperationRecord) {
    if r.binding.source.Some? && r.binding.source.value.ref.kind == OperationKind
    then r.head.protocolVersion == Lit("0.5.0") && |r.compatibility| == |r.binding.source.value.mappings|
    else r.compatibility == []
  }

  function LoadResult(codec: Codec, bundle: Bundle, m: Manifest): Result<nat, Failure> {
    match ReadBounded(bundle, m.result.path, MAX_NORMALIZED_RESULT_BYTES, NormalizedResultMemberBytes)
    case Err(failure) => Err(failure)
    case Ok(content) =>
      match codec.resultFields(content)
      case None => Err(RecordCorrupt)
      case Some(n) =>
        if n > MAX_RESULT_TOP_LEVEL_FIELDS then Err(LimitExceeded(ResultTopLevelFields, MAX_RESULT_TOP_LEVEL_FIELDS, n))
        else Ok(n)
  }

  function ManifestBytes(codec: Codec, bundle: Bundle, m: Manifest): Result<Bytes, Failure> {
    match ReadBounded(bundle, MANIFEST(), MAX_OPERATION_BUNDLE_BYTES, OperationBundleBytes)
    case Err(failure) => Err(failure)
    case Ok(content) =>
      if content != codec.printManifest(m) || codec.readManifest(content) != Some(m) then Err(RecordCorrupt)
      else Ok(content)
  }

  function CollectedMembers(codec: Codec, bundle: Bundle, m: Manifest, content: Bytes): Result<Collected, Failure> {
    match Collect(codec, bundle, DeclaredMembers(m), Collected([], |content|))
    case Err(failure) => Err(failure)
    case Ok(c) =>
      if c.total > MAX_OPERATION_BUNDLE_BYTES
      then Err(LimitExceeded(OperationBundleBytes, MAX_OPERATION_BUNDLE_BYTES, c.total))
      else Ok(c)
  }

  function Assemble(codec: Codec, m: Manifest, content: Bytes, members: seq<OperationMember>, binding: Binding,
                    compatibility: seq<Value>): OperationRecord
  {
    OperationRecord(m.head, codec.sha256(content), Sort(MemberLess, members), Renderers(m.artifacts), binding,
                    compatibility)
  }

  /** `_derive_record`. */
  function Derive(codec: Codec, m: Manifest, bundle: Bundle, binding: Binding, compatibility: seq<Value>)
      : Result<OperationRecord, Failure>
  {
    if |m.artifacts| > MAX_OPERATION_ARTIFACTS
    then Err(LimitExceeded(OperationArtifacts, MAX_OPERATION_ARTIFACTS, |m.artifacts|))
    else if !NamesMatch(m, bundle) then Err(RecordCorrupt)
    else
      match ManifestBytes(codec, bundle, m)
      case Err(failure) => Err(failure)
      case Ok(content) =>
        match CollectedMembers(codec, bundle, m, content)
        case Err(failure) => Err(failure)
        case Ok(c) =>
          match LoadResult(codec, bundle, m)
          case Err(failure) => Err(failure)
          case Ok(_) =>
            var r := Assemble(codec, m, content, c.members, binding, compatibility);
            if codec.headOk(r.head, r.renderers) && CompatibilityOk(r) then Ok(r) else Err(RecordCorrupt)
  }

  /** What a successful derivation has established. */
  lemma {:induction false} DeriveEstablishes(codec: Codec, m: Manifest, bundle: Bundle, binding: Binding,
                                             compatibility: seq<Value>)
    requires Derive(codec, m, bundle, binding, compatibility).Ok?
    ensures NamesMatch(m, bundle) && |m.artifacts| <= MAX_OPERATION_ARTIFACTS
    ensures MANIFEST() in bundle && bundle[MANIFEST()] == File(codec.printManifest(m))
    ensures codec.readManifest(codec.printManifest(m)) == Some(m)
    ensures AllHold(codec, bundle, DeclaredMembers(m))
    ensures |codec.printManifest(m)| + TotalBytes(bundle, DeclaredMembers(m)) <= MAX_OPERATION_BUNDLE_BYTES
    ensures Derive(codec, m, bundle, binding, compatibility).value
            == Assemble(codec, m, codec.printManifest(m), MembersOf(bundle, DeclaredMembers(m)), binding, compatibility)
  {
    var content := codec.printManifest(m);
    CollectIff(codec, bundle, DeclaredMembers(m), Collected([], |content|));
    assert [] + MembersOf(bundle, DeclaredMembers(m)) == MembersOf(bundle, DeclaredMembers(m));
  }

  /** The result file is a JSON object with few enough fields. */
  ghost predicate ResultIsReadable(codec: Codec, bundle: Bundle, m: Manifest) {
    && m.result.path in bundle && bundle[m.result.path].File?
    && codec.resultFields(bundle[m.result.path].content).Some?
    && codec.resultFields(bundle[m.result.path].content).value <= MAX_RESULT_TOP_LEVEL_FIELDS
  }

  /** A record is derived exactly from a directory that holds the manifest's exact bytes and every
      declared file and nothing else, within all limits, with a readable result. */
  lemma {:induction false} DeriveIff(codec: Codec, m: Manifest, bundle: Bundle, binding: Binding,
                                     compatibility: seq<Value>)
    ensures var content := codec.printManifest(m);
      var record := Assemble(codec, m, content, MembersOf(bundle, DeclaredMembers(m)), binding, compatibility);
      Derive(codec, m, bundle, binding, compatibility).Ok? <==>
        && |m.artifacts| <= MAX_OPERATION_ARTIFACTS
        && NamesMatch(m, bundle)
        && MANIFEST() in bundle && bundle[MANIFEST()] == File(content)
        && codec.readManifest(content) == Some(m)
        && AllHold(codec, bundle, DeclaredMembers(m))
        && |content| + TotalBytes(bundle, DeclaredMembers(m)) <= MAX_OPERATION_BUNDLE_BYTES
        && ResultIsReadable(codec, bundle, m)
        && codec.headOk(record.head, record.renderers) && CompatibilityOk(record)
  {
    var content := codec.printManifest(m);
    CollectIff(codec, bundle, DeclaredMembers(m), Collected([], |content|));
    assert [] + MembersOf(bundle, DeclaredMembers(m)) == MembersOf(bundle, DeclaredMembers(m));
    if AllHold(codec, bundle, DeclaredMembers(m)) {
      assert DeclaredMembers(m)[1] == Declared(ResultMember, m.result);
      assert Holds(codec, bundle, DeclaredMembers(m)[1]);
    }
  }

  /** A directory is determined by the manifest it reconciles with. */
  lemma {:induction false} FilesAreExpectedNames(codec: Codec, m: Manifest, bundle: Bundle)
    requires NamesMatch(m, bundle) && MANIFEST() in bundle && AllHold(codec, bundle, DeclaredMembers(m))
    ensures bundle.Keys == ExpectedNameSet(m)
  {
    var expected := ExpectedNames(m);
    forall i | 0 <= i < |expected| ensures expected[i] in bundle {
      if i > 0 {
        assert Holds(codec, bundle, DeclaredMembers(m)[i - 1]);
      }
    }
    forall path | path in bundle ensures path in expected {
      var top := FirstSegment(path);
      FirstSegmentIsPrefix(path);
      assert top in TopNames(bundle);
      assert top in expected;
      assert top in bundle;
    }
  }

  lemma {:induction false} SameDeclaredFile(codec: Codec, a: Bundle, b: Bundle, d: Declared)
    requires CollisionFree(codec.sha256) && Holds(codec, a, d) && Holds(codec, b, d)
    ensures a[d.file.path] == b[d.file.path]
  {
  }

  lemma {:induction false} ExpectedNameIs(m: Manifest, name: Text)
    requires name in ExpectedNameSet(m)
    ensures name == MANIFEST() || exists i :: 0 <= i < |DeclaredMembers(m)| && DeclaredMembers(m)[i].file.path == name
  {
    var i :| 0 <= i < |ExpectedNames(m)| && ExpectedNames(m)[i] == name;
    if i > 0 {
      assert DeclaredMembers(m)[i - 1].file.path == name;
    }
  }

  lemma {:induction false} SameFile(codec: Codec, m: Manifest, a: Bundle, b: Bundle, path: Text)
    requires CollisionFree(codec.sha256) && path in ExpectedNameSet(m)
    requires AllHold(codec, a, DeclaredMembers(m)) && AllHold(codec, b, DeclaredMembers(m))
    requires MANIFEST() in a && MANIFEST() in b && a[MANIFEST()] == b[MANIFEST()]
    ensures path in a && path in b && a[path] == b[path]
  {
    ExpectedNameIs(m, path);
    if path != MANIFEST() {
      var i :| 0 <= i < |DeclaredMembers(m)| && DeclaredMembers(m)[i].file.path == path;
      SameDeclaredFile(codec, a, b, DeclaredMembers(m)[i]);
    }
  }

  lemma {:induction false} BundleIsDetermined(codec: Codec, m: Manifest, a: Bundle, b: Bundle)
    requires CollisionFree(codec.sha256)
    requires a.Keys == ExpectedNameSet(m) && b.Keys == ExpectedNameSet(m)
    requires AllHold(codec, a, DeclaredMembers(m)) && AllHold(codec, b, DeclaredMembers(m))
    requires MANIFEST() in a && MANIFEST() in b && a[MANIFEST()] == b[MANIFEST()]
    ensures a == b
  {
    forall path | path in a ensures path in b && a[path] == b[path] {
      SameFile(codec, m, a, b, path);
    }
  }

  // ----- the binding of a record to its source (dataset_registry.py) -----

  /** A payload with rows of full width and distinct field ids, as its validator guarantees. */
  type Table = p: DatasetPayload |
    && (forall r :: 0 <= r < |p.rows| ==> |p.rows[r]| == |p.columns|)
    && (forall i, j :: 0 <= i < j < |p.columns| ==> p.columns[i].fieldId != p.columns[j].fieldId)
    witness DatasetPayload([], [])

  predicate IsColumn(p: Table, i: int, id: Text) {
    0 <= i < |p.columns| && p.columns[i].fieldId == id
  }

  function ColumnIndex(p: Table, id: Text, from: nat): (i: Option<nat>)
    requires from <= |p.columns|
    ensures i.Some? ==> IsColumn(p, i.value, id)
    ensures i.None? ==> forall k :: from <= k ==> !IsColumn(p, k, id)
    decreases |p.columns| - from
  {
    if from == |p.columns| then None
    else if p.columns[from].fieldId == id then Some(from)
    else ColumnIndex(p, id, from + 1)
  }

  /** A whole column as a list. */
  function ColumnValues(p: Table, i: nat): Value
    requires i < |p.columns|
  {
    List(seq(|p.rows|, r requires 0 <= r < |p.rows| => p.rows[r][i]))
  }

  function MappedColumn(p: Table, id: Text): Value {
    match ColumnIndex(p, id, 0) case Some(i) => ColumnValues(p, i) case None => Null
  }

  predicate HasKey(members: seq<(Text, Json)>, key: Text) {
    exists i :: 0 <= i < |members| && members[i].0 == key
  }

  /** The mapping takes a source column not yet taken to an input field not yet set. */
  predicate MappingFits(p: Table, mappings: seq<FieldMapping>, literals: seq<(Text, Json)>, k: nat)
    requires k < |mappings|
  {
    && ColumnIndex(p, mappings[k].sourceField, 0).Some?
    && !HasKey(literals, mappings[k].inputField)
    && forall j :: 0 <= j < k ==>
         mappings[j].sourceField != mappings[k].sourceField && mappings[j].inputField != mappings[k].inputField
  }

  predicate MappingsFit(p: Table, mappings: seq<FieldMapping>, literals: seq<(Text, Json)>) {
    forall k :: 0 <= k < |mappings| ==> MappingFits(p, mappings, literals, k)
  }

  function MappedMembers(p: Table, mappings: seq<FieldMapping>): (members: seq<(Text, Json)>)
    ensures |members| == |mappings|
  {
    seq(|mappings|, k requires 0 <= k < |mappings| =>
      (mappings[k].inputField, MappedColumn(p, mappings[k].sourceField)))
  }

  /** `resolve_dataset_fields`: the literals, then every mapped column whole and unchanged, and that
      exactly when no two mappings share a source or a target, no target is a literal and every
      source is a column. */
  method ResolveDatasetFields(p: Table, mappings: seq<FieldMapping>, literals: seq<(Text, Json)>)
      returns (r: Option<seq<(Text, Json)>>)
    ensures r == if MappingsFit(p, mappings, literals) then Some(literals + MappedMembers(p, mappings)) else None
  {
    var output := literals;
    var seenSource: set<Text> := {};
    var seenTarget: set<Text> := set i | 0 <= i < |literals| :: literals[i].0;
    var invalid := false;
    for k := 0 to |mappings|
      invariant invalid <==> exists j :: 0 <= j < k && !MappingFits(p, mappings, literals, j)
      invariant !invalid ==> output == literals + MappedMembers(p, mappings[..k])
      invariant !invalid ==> forall t :: t in seenSource <==> exists j :: 0 <= j < k && mappings[j].sourceField == t
      invariant !invalid ==> forall t :: t in seenTarget <==>
                  HasKey(literals, t) || exists j :: 0 <= j < k && mappings[j].inputField == t
    {
      var source, target := mappings[k].sourceField, mappings[k].inputField;
      var index := ColumnIndex(p, source, 0);
      if source in seenSource || target in seenTarget || index.None? {
        assert !invalid ==> !MappingFits(p, mappings, literals, k);
        invalid := true;
      } else {
        seenSource := seenSource + {source};
        seenTarget := seenTarget + {target};
        output := output + [(target, ColumnValues(p, index.value))];
      }
    }
    assert mappings[..|mappings|] == mappings;
    r := if invalid then None else Some(output);
  }

  /** `_same_json`: both have canonical bytes and these are equal. */
  predicate SameJson(a: Json, b: Json) {
    CanonicalJsonBytes(a).Some? && CanonicalJsonBytes(a) == CanonicalJsonBytes(b)
  }

  function Resolved(p: Table, b: Binding): Json
    requires b.source.Some?
  {
    Obj(b.literals.members + MappedMembers(p, b.source.value.mappings))
  }

  /** The dataset record and payload that accompany an operation, either of which may be missing. */
  datatype Companion = Companion(record: Option<DatasetRecord>, payload: Option<Table>)

  /** The record has the reference of the source, and the payload is the record's. */
  predicate IsRecordOf(codec: Codec, source: BindingSource, record: DatasetRecord, payload: Table) {
    DatasetReference(codec.sha256, record) == Some(source.ref) && MatchesRecord(codec.sha256, record, payload)
  }

  /** `_validate_binding`: None when the binding is accepted. */
  function ValidateBinding(codec: Codec, b: Binding, m: Manifest, dataset: Companion): Option<Failure> {
    match b.source
    case None =>
      if dataset.record.Some? || dataset.payload.Some? || !SameJson(b.literals, m.requestInput)
      then Some(InvalidFieldMapping) else None
    case Some(source) =>
      if source.ref.kind == OperationKind then Some(UnsupportedBinding)
      else if dataset.record.None? || dataset.payload.None? then Some(InternalFailure)
      else
        var record, payload := dataset.record.value, dataset.payload.value;
        if !IsRecordOf(codec, source, record, payload) then Some(RecordCorrupt)
        else ValidateInput(b, m, record, payload)
  }

  /** The rest of `_validate_binding`, for the dataset that the binding names. */
  function ValidateInput(b: Binding, m: Manifest, record: DatasetRecord, payload: Table): Option<Failure>
    requires b.source.Some?
  {
    if !MappingsFit(payload, b.source.value.mappings, b.literals.members) then Some(InvalidFieldMapping)
    else if !SameJson(record.source.provenance, m.provenance) then Some(RecordCorrupt)
    else if !SameJson(Resolved(payload, b), m.requestInput) then Some(InvalidFieldMapping)
    else None
  }

  /** `build_operation_record`. */
  function Build(codec: Codec, m: Manifest, bundle: Bundle, b: Binding, dataset: Companion, compatibility: seq<Value>)
      : Result<OperationRecord, Failure>
  {
    if compatibility != [] && (b.source.None? || b.source.value.ref.kind != OperationKind) then Err(RecordCorrupt)
    else
      match ValidateBinding(codec, b, m, dataset)
      case Some(failure) => Err(failure)
      case None => Derive(codec, m, bundle, b, compatibility)
  }

  /** `reconcile_operation_record`. */
  function Reconcile(codec: Codec, r: OperationRecord, bundle: Bundle, dataset: Companion): Result<Manifest, Failure> {
    match ReadBounded(bundle, MANIFEST(), MAX_OPERATION_BUNDLE_BYTES, OperationBundleBytes)
    case Err(failure) => Err(failure)
    case Ok(content) =>
      match codec.readManifest(content)
      case None => Err(RecordCorrupt)
      case Some(m) =>
        match ValidateBinding(codec, r.binding, m, dataset)
        case Some(failure) => Err(failure)
        case None =>
          match Derive(codec, m, bundle, r.binding, r.compatibility)
          case Err(failure) => Err(failure)
          case Ok(derived) => if derived == r then Ok(m) else Err(RecordCorrupt)
  }

  // ----- main results -----

  /** A record built over a directory reconciles with the unchanged directory, to the same manifest. */
  lemma {:induction false} BuildThenReconcile(codec: Codec, m: Manifest, bundle: Bundle, b: Binding, dataset: Companion,
                                              compatibility: seq<Value>)
    requires Build(codec, m, bundle, b, dataset, compatibility).Ok?
    ensures Reconcile(codec, Build(codec, m, bundle, b, dataset, compatibility).value, bundle, dataset) == Ok(m)
  {
    DeriveEstablishes(codec, m, bundle, b, compatibility);
  }

  /** A record reconciles exactly by being derived again from an accepted binding. */
  lemma {:induction false} ReconcileDerives(codec: Codec, r: OperationRecord, bundle: Bundle, dataset: Companion)
    requires Reconcile(codec, r, bundle, dataset).Ok?
    ensures var m := Reconcile(codec, r, bundle, dataset).value;
      && ValidateBinding(codec, r.binding, m, dataset).None?
      && Derive(codec, m, bundle, r.binding, r.compatibility) == Ok(r)
  {
  }

  ghost predicate IsBundleOf(codec: Codec, m: Manifest, bundle: Bundle) {
    && bundle.Keys == ExpectedNameSet(m)
    && AllHold(codec, bundle, DeclaredMembers(m))
    && MANIFEST() in bundle && bundle[MANIFEST()] == File(codec.printManifest(m))
    && |codec.printManifest(m)| + TotalBytes(bundle, DeclaredMembers(m)) <= MAX_OPERATION_BUNDLE_BYTES
  }

  lemma {:induction false} ReconcileEstablishes(codec: Codec, r: OperationRecord, bundle: Bundle, dataset: Companion)
    requires Reconcile(codec, r, bundle, dataset).Ok?
    ensures var m := Reconcile(codec, r, bundle, dataset).value;
      && IsBundleOf(codec, m, bundle)
      && codec.readManifest(codec.printManifest(m)) == Some(m)
      && r == Assemble(codec, m, codec.printManifest(m), MembersOf(bundle, DeclaredMembers(m)), r.binding,
                       r.compatibility)
  {
    ReconcileDerives(codec, r, bundle, dataset);
    var m := Reconcile(codec, r, bundle, dataset).value;
    DeriveEstablishes(codec, m, bundle, r.binding, r.compatibility);
    FilesAreExpectedNames(codec, m, bundle);
  }

  /** Records with the same manifest digest reconcile with one directory only: any change to the set
      of names, to the manifest's bytes or to a member's bytes is refused. */
  lemma {:induction false} OnlyOneBundleReconciles(codec: Codec, r: OperationRecord, s: OperationRecord, a: Bundle,
                                                   b: Bundle,
                                                   dataset: Companion, other: Companion)
    requires CollisionFree(codec.sha256) && r.manifestSha == s.manifestSha
    requires Reconcile(codec, r, a, dataset).Ok? && Reconcile(codec, s, b, other).Ok?
    ensures a == b
    ensures Reconcile(codec, r, a, dataset) == Reconcile(codec, s, b, other)
  {
    ReconcileEstablishes(codec, r, a, dataset);
    ReconcileEstablishes(codec, s, b, other);
    var m := Reconcile(codec, r, a, dataset).value;
    BundleIsDetermined(codec, m, a, b);
  }

  lemma {:induction false} ResolvedIsWellFormed(p: Table, b: Binding)
    requires b.source.Some? && MappingsFit(p, b.source.value.mappings, b.literals.members)
    ensures WellFormed(Resolved(p, b))
  {
    var literals, mappings := b.literals.members, b.source.value.mappings;
    var members := literals + MappedMembers(p, mappings);
    forall i, j | 0 <= i < j < |members| ensures members[i].0 != members[j].0 {
      if j >= |literals| {
        assert MappingFits(p, mappings, literals, j - |literals|);
        assert i < |literals| ==> HasKey(literals, members[i].0);
      }
    }
  }

  lemma {:induction false} AcceptedBindingIsBound(codec: Codec, b: Binding, m: Manifest, dataset: Companion)
    requires ValidateBinding(codec, b, m, dataset).None? && b.source.Some?
    ensures dataset.record.Some? && dataset.payload.Some?
    ensures DatasetReference(codec.sha256, dataset.record.value) == Some(b.source.value.ref)
    ensures MatchesRecord(codec.sha256, dataset.record.value, dataset.payload.value)
    ensures MappingsFit(dataset.payload.value, b.source.value.mappings, b.literals.members)
    ensures SameJson(dataset.record.value.source.provenance, m.provenance)
    ensures SameJson(Resolved(dataset.payload.value, b), m.requestInput)
  {
  }

  /** Two values are the same canonical value. */
  ghost predicate IsSame(a: Json, b: Json) {
    CanonicalJsonBytes(a).Some? && CanonicalJsonBytes(b).Some? && Equiv(a, b)
  }

  lemma {:induction false} SameJsonIff(a: Json, b: Json)
    requires WellFormed(a) && WellFormed(b)
    ensures SameJson(a, b) <==> IsSame(a, b)
  {
    if CanonicalJsonBytes(a).Some? {
      CanonicalBytesIffEquiv(a, b);
    }
  }

  ghost predicate HasColumn(p: Table, id: Text) {
    exists c :: c in p.columns && c.fieldId == id
  }

  lemma {:induction false} HasColumnIff(p: Table, id: Text)
    ensures ColumnIndex(p, id, 0).Some? <==> HasColumn(p, id)
  {
    var i := ColumnIndex(p, id, 0);
    if i.Some? {
      assert p.columns[i.value] in p.columns;
    }
    if HasColumn(p, id) {
      var c :| c in p.columns && c.fieldId == id;
      var k :| 0 <= k < |p.columns| && p.columns[k] == c;
      assert IsColumn(p, k, id);
    }
  }

  /** Every mapping takes a column of the table to an input field; no column and no field is named twice,
      and no field is also a literal. */
  ghost predicate FieldsAreMapped(p: Table, mappings: seq<FieldMapping>, literals: seq<(Text, Json)>) {
    && (forall m :: m in mappings ==> HasColumn(p, m.sourceField))
    && (forall m, l :: m in mappings && l in literals ==> l.0 != m.inputField)
    && (forall j, k :: 0 <= j < k < |mappings| ==>
          mappings[j].sourceField != mappings[k].sourceField && mappings[j].inputField != mappings[k].inputField)
  }

  lemma {:induction false} FittingIsMapped(p: Table, mappings: seq<FieldMapping>, literals: seq<(Text, Json)>)
    requires MappingsFit(p, mappings, literals)
    ensures FieldsAreMapped(p, mappings, literals)
  {
    forall m | m in mappings
      ensures HasColumn(p, m.sourceField) && forall l :: l in literals ==> l.0 != m.inputField
    {
      var k :| 0 <= k < |mappings| && mappings[k] == m;
      assert MappingFits(p, mappings, literals, k);
      HasColumnIff(p, m.sourceField);
    }
    forall j, k | 0 <= j < k < |mappings|
      ensures mappings[j].sourceField != mappings[k].sourceField && mappings[j].inputField != mappings[k].inputField
    {
      assert MappingFits(p, mappings, literals, k);
    }
  }

  lemma {:induction false} MappedIsFitting(p: Table, mappings: seq<FieldMapping>, literals: seq<(Text, Json)>)
    requires FieldsAreMapped(p, mappings, literals)
    ensures MappingsFit(p, mappings, literals)
  {
    forall k | 0 <= k < |mappings| ensures MappingFits(p, mappings, literals, k) {
      assert mappings[k] in mappings;
      HasColumnIff(p, mappings[k].sourceField);
      forall i | 0 <= i < |literals| ensures literals[i].0 != mappings[k].inputField {
        assert literals[i] in literals;
      }
    }
  }

  /** The input is an object of the literals and, under each mapped field, the whole of its column. */
  ghost predicate IsResolved(p: Table, b: Binding, v: Json)
    requires b.source.Some?
  {
    var mappings, literals := b.source.value.mappings, b.literals.members;
    && v.Obj? && |v.members| == |literals| + |mappings| && v.members[..|literals|] == literals
    && forall k :: 0 <= k < |mappings| ==>
         var (name, column) := v.members[|literals| + k];
         && name == mappings[k].inputField && column.Arr? && |column.items| == |p.rows|
         && forall i, r :: IsColumn(p, i, mappings[k].sourceField) && 0 <= r < |p.rows| ==>
              column.items[r] == p.rows[r][i]
  }

  lemma {:induction false} ResolvedIs(p: Table, b: Binding)
    requires b.source.Some? && MappingsFit(p, b.source.value.mappings, b.literals.members)
    ensures IsResolved(p, b, Resolved(p, b))
  {
    var mappings, literals := b.source.value.mappings, b.literals.members;
    forall k | 0 <= k < |mappings|
      ensures var column := MappedColumn(p, mappings[k].sourceField);
        && column.Arr? && |column.items| == |p.rows|
        && forall i, r :: IsColumn(p, i, mappings[k].sourceField) && 0 <= r < |p.rows| ==>
             column.items[r] == p.rows[r][i]
    {
      assert MappingFits(p, mappings, literals, k);
    }
  }

  /** The companion is the dataset that the binding names, whole. */
  ghost predicate IsDatasetOf(codec: Codec, source: BindingSource, dataset: Companion) {
    && source.ref.kind == DatasetKind && dataset.record.Some? && dataset.payload.Some?
    && DatasetReference(codec.sha256, dataset.record.value) == Some(source.ref)
    && MatchesRecord(codec.sha256, dataset.record.value, dataset.payload.value)
  }

  /** The input is resolved from the literals and the columns of the table, and is the request's. */
  ghost predicate BindsInput(p: Table, b: Binding, input: Value)
    requires b.source.Some?
  {
    && FieldsAreMapped(p, b.source.value.mappings, b.literals.members)
    && exists v: Value :: IsResolved(p, b, v) && IsSame(v, input)
  }

  lemma {:induction false} BindsInputIff(p: Table, b: Binding, input: Value)
    requires b.source.Some?
    ensures BindsInput(p, b, input) <==>
              MappingsFit(p, b.source.value.mappings, b.literals.members) && SameJson(Resolved(p, b), input)
  {
    if FieldsAreMapped(p, b.source.value.mappings, b.literals.members) {
      MappedIsFitting(p, b.source.value.mappings, b.literals.members);
      InputIff(p, b, input);
    } else if MappingsFit(p, b.source.value.mappings, b.literals.members) {
      FittingIsMapped(p, b.source.value.mappings, b.literals.members);
    }
  }

  /** The checks behind a binding's source, once record and payload are there. */
  ghost predicate SourceHolds(codec: Codec, b: Binding, m: Manifest, dataset: Companion)
    requires b.source.Some?
  {
    && IsDatasetOf(codec, b.source.value, dataset)
    && MappingsFit(dataset.payload.value, b.source.value.mappings, b.literals.members)
    && SameJson(dataset.record.value.source.provenance, m.provenance)
    && SameJson(Resolved(dataset.payload.value, b), m.requestInput)
  }

  lemma {:induction false} AcceptedSourceHolds(codec: Codec, b: Binding, m: Manifest, dataset: Companion)
    requires b.source.Some? && ValidateBinding(codec, b, m, dataset).None?
    ensures SourceHolds(codec, b, m, dataset)
  {
    AcceptedBindingIsBound(codec, b, m, dataset);
    assert IsDatasetOf(codec, b.source.value, dataset);
  }

  lemma {:induction false} SoundSourceLeavesInput(codec: Codec, b: Binding, m: Manifest, record: DatasetRecord,
                                                 p: Table)
    requires b.source.Some? && b.source.value.ref.kind == DatasetKind
    requires IsRecordOf(codec, b.source.value, record, p)
    ensures ValidateBinding(codec, b, m, Companion(Some(record), Some(p))) == ValidateInput(b, m, record, p)
  {
  }

  lemma {:induction false} HoldingSourceIsAccepted(codec: Codec, b: Binding, m: Manifest, dataset: Companion)
    requires b.source.Some? && SourceHolds(codec, b, m, dataset)
    ensures ValidateBinding(codec, b, m, dataset).None?
  {
    assert dataset == Companion(Some(dataset.record.value), Some(dataset.payload.value));
    SoundSourceLeavesInput(codec, b, m, dataset.record.value, dataset.payload.value);
  }

  lemma {:induction false} SourceHoldsIff(codec: Codec, b: Binding, m: Manifest, dataset: Companion)
    requires b.source.Some?
    ensures SourceHolds(codec, b, m, dataset) <==>
              && IsDatasetOf(codec, b.source.value, dataset)
              && IsSame(dataset.record.value.source.provenance, m.provenance)
              && BindsInput(dataset.payload.value, b, m.requestInput)
  {
    if IsDatasetOf(codec, b.source.value, dataset) {
      SameJsonIff(dataset.record.value.source.provenance, m.provenance);
      BindsInputIff(dataset.payload.value, b, m.requestInput);
    }
  }

  /** When a binding is accepted. Without a source: no dataset comes with it and the literals are the
      request's input. With one: the dataset is the one it names, the provenance is the manifest's, and the
      input resolved from literals and columns is the request's. */
  lemma {:induction false} BindingAcceptedIff(codec: Codec, b: Binding, m: Manifest, dataset: Companion)
    ensures ValidateBinding(codec, b, m, dataset).None? <==>
      if b.source.None? then
        dataset.record.None? && dataset.payload.None? && IsSame(b.literals, m.requestInput)
      else
        && IsDatasetOf(codec, b.source.value, dataset)
        && IsSame(dataset.record.value.source.provenance, m.provenance)
        && BindsInput(dataset.payload.value, b, m.requestInput)
  {
    if b.source.None? {
      SameJsonIff(b.literals, m.requestInput);
    } else {
      SourceHoldsIff(codec, b, m, dataset);
      if ValidateBinding(codec, b, m, dataset).None? {
        AcceptedSourceHolds(codec, b, m, dataset);
      } else if SourceHolds(codec, b, m, dataset) {
        HoldingSourceIsAccepted(codec, b, m, dataset);
      }
    }
  }

  lemma {:induction false} InputIff(p: Table, b: Binding, input: Value)
    requires b.source.Some? && MappingsFit(p, b.source.value.mappings, b.literals.members)
    ensures SameJson(Resolved(p, b), input) <==> exists v: Value :: IsResolved(p, b, v) && IsSame(v, input)
  {
    ResolvedIs(p, b);
    ResolvedIsWellFormed(p, b);
    SameJsonIff(Resolved(p, b), input);
    var resolved: Value := Resolved(p, b);
    assert IsResolved(p, b, resolved);
    forall v: Value | IsResolved(p, b, v) ensures v == resolved {
      ResolvedIsOne(p, b, v);
    }
  }

  lemma {:induction false} ResolvedIsOne(p: Table, b: Binding, v: Json)
    requires b.source.Some? && MappingsFit(p, b.source.value.mappings, b.literals.members)
    requires IsResolved(p, b, v)
    ensures v == Resolved(p, b)
  {
    var mappings, literals := b.source.value.mappings, b.literals.members;
    forall k | 0 <= k < |mappings|
      ensures v.members[|literals| + k] == MappedMembers(p, mappings)[k]
    {
      assert MappingFits(p, mappings, literals, k);
      var i := ColumnIndex(p, mappings[k].sourceField, 0).value;
      assert v.members[|literals| + k].1.items == ColumnValues(p, i).items;
    }
    assert v.members == literals + MappedMembers(p, mappings);
  }

  /** A reconciled dataset operation ran on the dataset's own columns: the request's input is, as a
      canonical value, the literals and the mapped columns of a payload that the record pins. */
  lemma {:induction false} ReconciledInputIsBound(codec: Codec, r: OperationRecord, bundle: Bundle, dataset: Companion)
    requires Reconcile(codec, r, bundle, dataset).Ok? && r.binding.source.Some?
    ensures dataset.record.Some? && dataset.payload.Some?
    ensures DatasetReference(codec.sha256, dataset.record.value) == Some(r.binding.source.value.ref)
    ensures MatchesRecord(codec.sha256, dataset.record.value, dataset.payload.value)
    ensures Equiv(Resolved(dataset.payload.value, r.binding), Reconcile(codec, r, bundle, dataset).value.requestInput)
  {
    ReconcileDerives(codec, r, bundle, dataset);
    var m := Reconcile(codec, r, bundle, dataset).value;
    AcceptedBindingIsBound(codec, r.binding, m, dataset);
    var resolved := Resolved(dataset.payload.value, r.binding);
    ResolvedIsWellFormed(dataset.payload.value, r.binding);
    CanonicalBytesIffEquiv(resolved, m.requestInput);
  }

  // ----- the derived record satisfies the record's own validator -----

  lemma {:induction false} MemberLessIsStrict()
    ensures StrictOrder(MemberLess)
  {
    forall a: OperationMember ensures !MemberLess(a, a) {
      LessIsIrreflexive(a.path);
    }
    forall a: OperationMember, b: OperationMember, c: OperationMember | MemberLess(a, b) && MemberLess(b, c)
      ensures MemberLess(a, c)
    {
      if a.kind == b.kind == c.kind { LessIsTransitive(a.path, b.path, c.path); }
    }
  }

  lemma {:induction false} RendererLessIsStrict()
    ensures StrictOrder(RendererLess)
  {
    forall a: Renderer ensures !RendererLess(a, a) {
      LessIsIrreflexive(a.name);
      LessIsIrreflexive(a.version);
    }
    forall a: Renderer, b: Renderer, c: Renderer | RendererLess(a, b) && RendererLess(b, c) ensures RendererLess(a, c) {
      if Less(a.name, b.name) && Less(b.name, c.name) { LessIsTransitive(a.name, b.name, c.name); }
      if Less(a.version, b.version) && Less(b.version, c.version) { LessIsTransitive(a.version, b.version, c.version); }
      LessIsIrreflexive(b.name);
    }
  }

  lemma {:induction false} RenderersAreSorted(artifacts: seq<Artifact>)
    ensures Sorted(RendererLess, Renderers(artifacts))
    ensures |Renderers(artifacts)| <= |artifacts|
  {
    var all := seq(|artifacts|, i requires 0 <= i < |artifacts| => artifacts[i].renderer);
    var distinct := Distinct(all);
    forall i, j | 0 <= i < j < |distinct|
      ensures RendererLess(distinct[i], distinct[j]) || RendererLess(distinct[j], distinct[i])
    {
      LessIsTotal(distinct[i].name, distinct[j].name);
      LessIsTotal(distinct[i].version, distinct[j].version);
    }
    RendererLessIsStrict();
    SortSorts(RendererLess, distinct);
  }

  lemma {:induction false} CountOfInsert(m: OperationMember, s: seq<OperationMember>, kind: MemberKind)
    ensures CountKind(Insert(MemberLess, m, s), kind) == CountKind(s, kind) + if m.kind == kind then 1 else 0
  {
    if s != [] {
      if MemberLess(m, s[0]) {
        assert ([m] + s)[1..] == s;
      } else {
        CountOfInsert(m, s[1..], kind);
        assert ([s[0]] + Insert(MemberLess, m, s[1..]))[1..] == Insert(MemberLess, m, s[1..]);
      }
    }
  }

  lemma {:induction false} CountOfSort(s: seq<OperationMember>, kind: MemberKind)
    ensures CountKind(Sort(MemberLess, s), kind) == CountKind(s, kind)
  {
    if s != [] {
      CountOfSort(s[1..], kind);
      CountOfInsert(s[0], Sort(MemberLess, s[1..]), kind);
    }
  }

  lemma {:induction false} CountOfArtifacts(members: seq<OperationMember>, kind: MemberKind)
    requires forall i :: 0 <= i < |members| ==> members[i].kind == ArtifactMember
    ensures CountKind(members, kind) == if kind == ArtifactMember then |members| else 0
  {
    if members != [] {
      CountOfArtifacts(members[1..], kind);
    }
  }

  lemma {:induction false} CountOfMembers(bundle: Bundle, m: Manifest, kind: MemberKind)
    ensures CountKind(MembersOf(bundle, DeclaredMembers(m)), kind)
            == if kind == ArtifactMember then |m.artifacts| else 1
  {
    var members := MembersOf(bundle, DeclaredMembers(m));
    forall i | 2 <= i < |members| ensures members[i].kind == ArtifactMember {
      assert DeclaredMembers(m)[i] == ArtifactFiles(m.artifacts)[i - 2];
    }
    CountOfArtifacts(members[2..], kind);
    assert members[1..][1..] == members[2..];
    assert CountKind(members[1..], kind) == (if kind == ResultMember then 1 else 0) + CountKind(members[2..], kind);
  }

  /** Declared paths differ on every platform, from one another and from the manifest's. */
  ghost predicate KeysDiffer(d: seq<Declared>) {
    && (forall i :: 0 <= i < |d| ==>
          MemberKey(d[i].file.path).Some? && MemberKey(d[i].file.path) != MemberKey(MANIFEST()))
    && (forall i, j :: 0 <= i < j < |d| ==> MemberKey(d[i].file.path) != MemberKey(d[j].file.path))
  }

  lemma {:induction false} DeclaredKeysDiffer(m: Manifest, bundle: Bundle)
    requires NamesMatch(m, bundle)
    ensures KeysDiffer(DeclaredMembers(m))
  {
    var expected, d := ExpectedNames(m), DeclaredMembers(m);
    assert expected[0] == MANIFEST();
    assert forall i :: 0 <= i < |d| ==> expected[i + 1] == d[i].file.path;
    forall i | 0 <= i < |d|
      ensures MemberKey(d[i].file.path).Some? && MemberKey(d[i].file.path) != MemberKey(MANIFEST())
    {
      assert MemberKey(expected[0]) != MemberKey(expected[i + 1]);
    }
    forall i, j | 0 <= i < j < |d| ensures MemberKey(d[i].file.path) != MemberKey(d[j].file.path) {
      assert MemberKey(expected[i + 1]) != MemberKey(expected[j + 1]);
    }
  }

  ghost predicate PathsDiffer(members: seq<OperationMember>) {
    forall i, j :: 0 <= i < j < |members| ==> MemberKey(members[i].path) != MemberKey(members[j].path)
  }

  lemma {:induction false} MembersSort(members: seq<OperationMember>)
    requires PathsDiffer(members)
    ensures Sorted(MemberLess, Sort(MemberLess, members))
    ensures PathsDiffer(Sort(MemberLess, members))
  {
    forall i, j | 0 <= i < j < |members|
      ensures MemberLess(members[i], members[j]) || MemberLess(members[j], members[i])
    {
      LessIsTotal(members[i].path, members[j].path);
    }
    MemberLessIsStrict();
    SortSorts(MemberLess, members);
    var s := Sort(MemberLess, members);
    forall i, j | 0 <= i < j < |s| ensures MemberKey(s[i].path) != MemberKey(s[j].path) {
      assert s[i] in members && s[j] in members;
      assert MemberLess(s[i], s[j]);
    }
  }

  lemma {:induction false} SomeOfKind(members: seq<OperationMember>, kind: MemberKind)
    requires CountKind(members, kind) > 0
    ensures exists i :: 0 <= i < |members| && members[i].kind == kind
  {
    if members[0].kind != kind {
      SomeOfKind(members[1..], kind);
      var i :| 0 <= i < |members[1..]| && members[1..][i].kind == kind;
      assert members[i + 1].kind == kind;
    }
  }

  lemma {:induction false} TwoOfKind(members: seq<OperationMember>, kind: MemberKind, i: nat, j: nat)
    requires i < j < |members| && members[i].kind == members[j].kind == kind
    ensures CountKind(members, kind) >= 2
  {
    if i > 0 {
      TwoOfKind(members[1..], kind, i - 1, j - 1);
    } else {
      OneOfKind(members[1..], kind, j - 1);
    }
  }

  lemma {:induction false} OneOfKind(members: seq<OperationMember>, kind: MemberKind, j: nat)
    requires j < |members| && members[j].kind == kind
    ensures CountKind(members, kind) >= 1
  {
    if j > 0 {
      OneOfKind(members[1..], kind, j - 1);
    }
  }

  ghost predicate OnlyAt(members: seq<OperationMember>, kind: MemberKind, i: nat) {
    i < |members| && forall k: nat :: k < |members| ==> (members[k].kind == kind <==> k == i)
  }

  lemma {:induction false} OnlyOne(members: seq<OperationMember>, kind: MemberKind) returns (i: nat)
    requires CountKind(members, kind) == 1
    ensures OnlyAt(members, kind, i)
  {
    SomeOfKind(members, kind);
    i :| 0 <= i < |members| && members[i].kind == kind;
    forall k: nat | k < |members| && k != i ensures members[k].kind != kind {
      if members[k].kind == kind {
        TwoOfKind(members, kind, if k < i then k else i, if k < i then i else k);
      }
    }
  }

  lemma {:induction false} SortedIsCanonical(members: seq<OperationMember>)
    requires Sorted(MemberLess, members)
    requires CountKind(members, NormalizedInput) == 1 && CountKind(members, ResultMember) == 1
    ensures InCanonicalOrder(members)
  {
    var i := OnlyOne(members, NormalizedInput);
    var j := OnlyOne(members, ResultMember);
    assert i > 0 ==> MemberLess(members[0], members[i]);
    assert i == 0;
    assert j > 1 ==> MemberLess(members[1], members[j]);
    forall k, l | 2 <= k < l < |members| ensures Less(members[k].path, members[l].path) {
      assert MemberLess(members[k], members[l]);
    }
  }

  /** What a derived record holds: the manifest's head and digest, the binding it was given, each declared
      file once with its digest and its true size, and the renderers of the artifacts. */
  lemma {:induction false} DerivedRecordHolds(codec: Codec, m: Manifest, bundle: Bundle, binding: Binding,
                                              compatibility: seq<Value>)
    requires Derive(codec, m, bundle, binding, compatibility).Ok?
    ensures MANIFEST() in bundle && bundle[MANIFEST()].File?
    ensures var r := Derive(codec, m, bundle, binding, compatibility).value;
      && r.head == m.head && r.manifestSha == codec.sha256(bundle[MANIFEST()].content)
      && r.binding == binding && r.compatibility == compatibility
      && multiset(r.members) == multiset(MembersOf(bundle, DeclaredMembers(m)))
      && (forall x :: x in r.renderers <==> exists i :: 0 <= i < |m.artifacts| && m.artifacts[i].renderer == x)
    ensures forall i :: 0 <= i < |DeclaredMembers(m)| ==>
              var d, x := DeclaredMembers(m)[i], MembersOf(bundle, DeclaredMembers(m))[i];
              && d.file.path in bundle && bundle[d.file.path].File?
              && x.kind == d.kind && x.path == d.file.path
              && x.sha256 == codec.sha256(bundle[d.file.path].content) && x.size == |bundle[d.file.path].content|
  {
    DeriveEstablishes(codec, m, bundle, binding, compatibility);
    var declared := DeclaredMembers(m);
    SortIsPermutation(MemberLess, MembersOf(bundle, declared));
    forall i | 0 <= i < |declared|
      ensures declared[i].file.path in bundle && bundle[declared[i].file.path].File?
      ensures declared[i].file.sha256 == codec.sha256(bundle[declared[i].file.path].content)
    {
      assert Holds(codec, bundle, declared[i]);
    }
    RenderersAre(m.artifacts);
  }

  lemma {:induction false} RenderersAre(artifacts: seq<Artifact>)
    ensures forall x :: x in Renderers(artifacts) <==> exists i :: 0 <= i < |artifacts| && artifacts[i].renderer == x
  {
    var all := seq(|artifacts|, i requires 0 <= i < |artifacts| => artifacts[i].renderer);
    forall x ensures x in all <==> exists i :: 0 <= i < |artifacts| && artifacts[i].renderer == x {
      if x in all {
        var i :| 0 <= i < |all| && all[i] == x;
        assert artifacts[i].renderer == x;
      }
      if i :| 0 <= i < |artifacts| && artifacts[i].renderer == x {
        assert all[i] == x;
      }
    }
  }

  /** Every derived record passes the checks that a stored record is read with. */
  lemma {:induction false} DerivedIsConsistent(codec: Codec, m: Manifest, bundle: Bundle, binding: Binding,
                                               compatibility: seq<Value>)
    requires Derive(codec, m, bundle, binding, compatibility).Ok?
    ensures IsConsistent(Derive(codec, m, bundle, binding, compatibility).value)
  {
    DeriveEstablishes(codec, m, bundle, binding, compatibility);
    var r := Derive(codec, m, bundle, binding, compatibility).value;
    var members := MembersOf(bundle, DeclaredMembers(m));
    DeclaredKeysDiffer(m, bundle);
    RenderersAreSorted(m.artifacts);
    MembersSort(members);
    CountOfSort(members, NormalizedInput);
    CountOfSort(members, ResultMember);
    CountOfSort(members, ArtifactMember);
    CountOfMembers(bundle, m, NormalizedInput);
    CountOfMembers(bundle, m, ResultMember);
    CountOfMembers(bundle, m, ArtifactMember);
    forall i | 0 <= i < |r.members|
      ensures MemberKey(r.members[i].path).Some? && MemberKey(r.members[i].path) != MemberKey(MANIFEST())
    {
      assert r.members[i] in members;
    }
    SortedIsCanonical(r.members);
    forall i, j | 0 <= i < j < |r.renderers| ensures RendererLess(r.renderers[i], r.renderers[j]) {
    }
  }

  // ----- copying a reconciled bundle -----

  /** `{member.path: member}[path]`. */
  function MemberByPath(members: seq<OperationMember>, path: Text): Option<OperationMember> {
    if members == [] then None
    else if members[|members| - 1].path == path then Some(members[|members| - 1])
    else MemberByPath(members[..|members| - 1], path)
  }

  lemma {:induction false} MemberByPathFinds(members: seq<OperationMember>, i: nat)
    requires i < |members| && PathsDiffer(members)
    ensures MemberByPath(members, members[i].path) == Some(members[i])
  {
    if i < |members| - 1 {
      MemberByPathFinds(members[..|members| - 1], i);
    }
  }

  lemma {:induction false} MemberIsFound(members: seq<OperationMember>, i: nat)
    requires i < |members| && PathsDiffer(members)
    ensures MemberByPath(Sort(MemberLess, members), members[i].path) == Some(members[i])
  {
    MembersSort(members);
    var s := Sort(MemberLess, members);
    assert members[i] in members && members[i] in s;
    var k :| 0 <= k < |s| && s[k] == members[i];
    MemberByPathFinds(s, k);
  }

  /** What reading a reconciled bundle again relies on. */
  ghost predicate Reconciled(codec: Codec, m: Manifest, r: OperationRecord, bundle: Bundle) {
    && IsBundleOf(codec, m, bundle)
    && KeysDiffer(DeclaredMembers(m))
    && r.members == Sort(MemberLess, MembersOf(bundle, DeclaredMembers(m)))
  }

  lemma {:induction false} ReconcileIsReconciled(codec: Codec, r: OperationRecord, bundle: Bundle, dataset: Companion)
    requires Reconcile(codec, r, bundle, dataset).Ok?
    ensures Reconciled(codec, Reconcile(codec, r, bundle, dataset).value, r, bundle)
  {
    var m := Reconcile(codec, r, bundle, dataset).value;
    ReconcileEstablishes(codec, r, bundle, dataset);
    ReconcileDerives(codec, r, bundle, dataset);
    DeriveEstablishes(codec, m, bundle, r.binding, r.compatibility);
    DeclaredKeysDiffer(m, bundle);
  }

  lemma {:induction false} RecordMemberOf(codec: Codec, m: Manifest, r: OperationRecord, bundle: Bundle, i: nat)
    requires Reconciled(codec, m, r, bundle) && i < |DeclaredMembers(m)|
    ensures var d := DeclaredMembers(m)[i];
      MemberByPath(r.members, d.file.path) == Some(MemberOf(bundle, d)) && Holds(codec, bundle, d)
  {
    assert Holds(codec, bundle, DeclaredMembers(m)[i]);
    MemberIsFound(MembersOf(bundle, DeclaredMembers(m)), i);
  }

  /** Read one member again, checked against the stored record. */
  function ReadAgain(codec: Codec, r: OperationRecord, bundle: Bundle, path: Text): Result<Bytes, Failure> {
    match MemberByPath(r.members, path)
    case None => Err(RecordCorrupt)
    case Some(member) =>
      match ReadBounded(bundle, path, MaximumOf(member.kind), LimitOf(member.kind))
      case Err(failure) => Err(failure)
      case Ok(content) =>
        if |content| != member.size || codec.sha256(content) != member.sha256 then Err(RecordCorrupt) else Ok(content)
  }

  lemma {:induction false} ReadsAgain(codec: Codec, m: Manifest, r: OperationRecord, bundle: Bundle, i: nat)
    requires Reconciled(codec, m, r, bundle) && i < |DeclaredMembers(m)|
    ensures var path := DeclaredMembers(m)[i].file.path;
      && path in bundle && bundle[path].File? && ReadAgain(codec, r, bundle, path) == Ok(bundle[path].content)
      && |bundle[path].content| == MemberOf(bundle, DeclaredMembers(m)[i]).size
  {
    RecordMemberOf(codec, m, r, bundle, i);
  }

  /** The files of a bundle other than the manifest. */
  function Members(bundle: Bundle): map<Text, Bytes> {
    map path | path in bundle && path != MANIFEST() && bundle[path].File? :: bundle[path].content
  }

  predicate IsDeclared(declared: seq<Declared>, path: Text) {
    exists j :: 0 <= j < |declared| && declared[j].file.path == path
  }

  lemma {:induction false} PathsAreDeclared(codec: Codec, m: Manifest, r: OperationRecord, bundle: Bundle, path: Text)
    requires Reconciled(codec, m, r, bundle)
    ensures path in Members(bundle) <==> IsDeclared(DeclaredMembers(m), path)
  {
    if path in bundle {
      ExpectedNameIs(m, path);
    }
    if j :| 0 <= j < |DeclaredMembers(m)| && DeclaredMembers(m)[j].file.path == path {
      assert Holds(codec, bundle, DeclaredMembers(m)[j]);
      assert MemberKey(path) != MemberKey(MANIFEST());
    }
  }

  function Copied(bundle: Bundle, declared: seq<Declared>): map<Text, Bytes> {
    if declared == [] then map[]
    else
      var path := declared[|declared| - 1].file.path;
      Copied(bundle, declared[..|declared| - 1])[
        path := if path in bundle && bundle[path].File? then bundle[path].content else []]
  }

  lemma {:induction false} CopiedKeys(bundle: Bundle, declared: seq<Declared>, path: Text)
    ensures path in Copied(bundle, declared) <==> IsDeclared(declared, path)
    ensures path in Copied(bundle, declared) && path in bundle && bundle[path].File? ==>
              Copied(bundle, declared)[path] == bundle[path].content
  {
    if declared != [] {
      var n := |declared| - 1;
      CopiedKeys(bundle, declared[..n], path);
      assert forall j :: 0 <= j < n ==> declared[..n][j] == declared[j];
    }
  }

  lemma {:induction false} CopiedIsMembers(codec: Codec, m: Manifest, r: OperationRecord, bundle: Bundle)
    requires Reconciled(codec, m, r, bundle)
    ensures Copied(bundle, DeclaredMembers(m)) == Members(bundle)
  {
    var copied := Copied(bundle, DeclaredMembers(m));
    forall path: Text ensures At(copied, path) == At(Members(bundle), path) {
      CopiedKeys(bundle, DeclaredMembers(m), path);
      PathsAreDeclared(codec, m, r, bundle, path);
    }
    SameLookups(copied, Members(bundle));
  }

  function At(files: map<Text, Bytes>, path: Text): Option<Bytes> {
    if path in files then Some(files[path]) else None
  }

  lemma {:induction false} SameLookups(a: map<Text, Bytes>, b: map<Text, Bytes>)
    requires forall path: Text :: At(a, path) == At(b, path)
    ensures a == b
  {
    forall path: Text ensures path in a <==> path in b {
      assert At(a, path) == At(b, path);
    }
    forall path: Text | path in a ensures a[path] == b[path] {
      assert At(a, path) == At(b, path);
    }
  }

  lemma {:induction false} CopyStep(bundle: Bundle, declared: seq<Declared>, i: nat)
    requires i < |declared| && declared[i].file.path in bundle && bundle[declared[i].file.path].File?
    ensures Copied(bundle, declared[..i + 1])
            == Copied(bundle, declared[..i])[declared[i].file.path := bundle[declared[i].file.path].content]
    ensures TotalBytes(bundle, declared[i..])
            == MemberOf(bundle, declared[i]).size + TotalBytes(bundle, declared[i + 1..])
  {
    assert declared[i..][1..] == declared[i + 1..];
    assert declared[..i + 1][..i] == declared[..i];
  }

  method CopyMembers(codec: Codec, m: Manifest, r: OperationRecord, bundle: Bundle)
      returns (members: map<Text, Bytes>, total: nat)
    requires Reconciled(codec, m, r, bundle)
    ensures members == Members(bundle)
    ensures total == TotalBytes(bundle, DeclaredMembers(m))
  {
    var declared := DeclaredMembers(m);
    members, total := map[], 0;
    for i := 0 to |declared|
      invariant total + TotalBytes(bundle, declared[i..]) == TotalBytes(bundle, declared)
      invariant members == Copied(bundle, declared[..i])
    {
      ReadsAgain(codec, m, r, bundle, i);
      var content := ReadAgain(codec, r, bundle, declared[i].file.path);
      CopyStep(bundle, declared, i);
      members := members[declared[i].file.path := content.value];
      total := total + |content.value|;
    }
    assert declared[..|declared|] == declared;
    CopiedIsMembers(codec, m, r, bundle);
  }

  function CopyWithin(manifest: Result<Bytes, Failure>, members: map<Text, Bytes>, total: nat)
      : Result<(Bytes, map<Text, Bytes>), Failure>
  {
    match manifest
    case Err(failure) => Err(failure)
    case Ok(content) =>
      if |content| + total > MAX_OPERATION_BUNDLE_BYTES
      then Err(LimitExceeded(OperationBundleBytes, MAX_OPERATION_BUNDLE_BYTES, |content| + total))
      else Ok((content, members))
  }

  /** `reconciled_bundle_bytes`: once a bundle reconciles, reading it again adds no failure, and what
      is copied is every file of the directory, byte for byte. */
  method ReconciledBundleBytes(codec: Codec, r: OperationRecord, bundle: Bundle, dataset: Companion)
      returns (out: Result<(Bytes, map<Text, Bytes>), Failure>)
    ensures match Reconcile(codec, r, bundle, dataset)
      case Err(failure) => out == Err(failure)
      case Ok(_) =>
        MANIFEST() in bundle && bundle[MANIFEST()].File? && out == Ok((bundle[MANIFEST()].content, Members(bundle)))
  {
    var reconciled := Reconcile(codec, r, bundle, dataset);
    if reconciled.Err? {
      return Err(reconciled.error);
    }
    ReconcileIsReconciled(codec, r, bundle, dataset);
    var members, total := CopyMembers(codec, reconciled.value, r, bundle);
    out := CopyWithin(ReadBounded(bundle, MANIFEST(), MAX_OPERATION_BUNDLE_BYTES, OperationBundleBytes), members,
                      total);
  }
}
