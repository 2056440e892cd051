/** Subject manifests and their hashes (shared/catalog.py): a recursive digest over a component and
    everything it depends on, and the cache in front of it. */
module Catalog {
  import opened Foundations
  import opened JsonText

  /** What a contract lookup yields before any digest is taken. `precheck` is the failure, if any, of
      the checks made before the dependencies are walked (guidance, display, callable models);
      `dependsOn` is None when it is not a list of strings; `local` holds the manifest members that do
      not mention dependencies, or the failure to compute them. */
  datatype ComponentRecord = ComponentRecord(id: Text, precheck: Option<Text>, dependsOn: Option<seq<Text>>,
                                             local: Result<Local, Text>)

  /** The manifest members that do not mention dependencies, as JSON documents. */
  datatype Local = Local(behaviourFiles: Doc, canonicalizationVersion: Doc, component: Doc, contractSchemaVersion: Doc,
                         guidance: Doc, publicSymbols: Doc, schemas: Doc, semanticDisplay: Doc, sharedRuntime: Doc)

  datatype Manifest = Manifest(local: Local, componentDependencies: map<Text, Text>,
                               externalSpecifications: seq<Text>)

  datatype Fault =
    | Cycle(path: seq<Text>)
    | NotInstalled(id: Text)
    | ContractFault(message: Text)
    | NotAStableId

  /** The installed components under one root, by id. */
  type Installed = c: map<Text, ComponentRecord> | forall id :: id in c ==> c[id].id == id witness map[]

  /** A digest of manifests without collisions. */
  ghost predicate CollisionFree(digest: Manifest -> Text) {
    forall m, n :: digest(m) == digest(n) ==> m == n
  }

  // ----- the text that is hashed -----

  function Entries(dependencies: map<Text, Text>, names: seq<Text>): (members: seq<Member>)
    requires forall i :: 0 <= i < |names| ==> names[i] in dependencies
    ensures |members| == |names|
    ensures forall i :: 0 <= i < |names| ==> members[i] == Member(names[i], DStr(dependencies[names[i]]))
  {
    seq(|names|, i requires 0 <= i < |names| => Member(names[i], DStr(dependencies[names[i]])))
  }

  function DependenciesDoc(dependencies: map<Text, Text>): Doc {
    DObj(Entries(dependencies, SortedSet(dependencies.Keys)))
  }

  function TextsDoc(texts: seq<Text>): Doc {
    DArr(seq(|texts|, i requires 0 <= i < |texts| => DStr(texts[i])))
  }

  function ManifestParts(m: Manifest): (parts: seq<Doc>)
    ensures |parts| == 11
  {
    [m.local.behaviourFiles, m.local.canonicalizationVersion, m.local.component,
     DependenciesDoc(m.componentDependencies), m.local.contractSchemaVersion, TextsDoc(m.externalSpecifications),
     m.local.guidance, m.local.publicSymbols, m.local.schemas, m.local.semanticDisplay, m.local.sharedRuntime]
  }

  const MANIFEST_KEYS: seq<string> := [
    "behaviour_files", "canonicalization_version", "component", "component_dependencies", "contract_schema_version",
    "external_dependency_specifications", "guidance", "public_symbols", "schemas", "semantic_display",
    "shared_runtime"]

  /** The manifest with its keys sorted. */
  function ManifestDoc(m: Manifest): Doc {
    DObj(seq(11, i requires 0 <= i < 11 => Member(Lit(MANIFEST_KEYS[i]), ManifestParts(m)[i])))
  }

  /** A hash of texts over `_canonical_json` of the manifest. */
  function TextDigest(sha: Text -> Text): Manifest -> Text {
    (m: Manifest) => sha(Print(ManifestDoc(m)))
  }

  lemma {:induction false} DependenciesDocIsInjective(a: map<Text, Text>, b: map<Text, Text>)
    requires DependenciesDoc(a) == DependenciesDoc(b)
    ensures a == b
  {
    var x, y := SortedSet(a.Keys), SortedSet(b.Keys);
    assert |x| == |y|;
    forall i | 0 <= i < |x| ensures x[i] == y[i] && a[x[i]] == b[x[i]] {
      assert Entries(a, x)[i] == Entries(b, y)[i];
    }
    assert x == y;
    forall k ensures k in a <==> k in b {
      assert k in a <==> k in x;
    }
    forall k | k in a ensures a[k] == b[k] {
      assert k in x;
      var i :| 0 <= i < |x| && x[i] == k;
    }
  }

  lemma {:induction false} TextsDocIsInjective(a: seq<Text>, b: seq<Text>)
    requires TextsDoc(a) == TextsDoc(b)
    ensures a == b
  {
    forall i | 0 <= i < |a| ensures a[i] == b[i] {
      assert TextsDoc(a).items[i] == TextsDoc(b).items[i];
    }
  }

  lemma {:induction false} SamePartsSameManifest(m: Manifest, n: Manifest)
    requires ManifestParts(m) == ManifestParts(n)
    ensures m == n
  {
    var x, y := ManifestParts(m), ManifestParts(n);
    assert x[0] == y[0] && x[1] == y[1] && x[2] == y[2] && x[4] == y[4] && x[6] == y[6];
    assert x[7] == y[7] && x[8] == y[8] && x[9] == y[9] && x[10] == y[10];
    assert x[3] == y[3] && x[5] == y[5];
    DependenciesDocIsInjective(m.componentDependencies, n.componentDependencies);
    TextsDocIsInjective(m.externalSpecifications, n.externalSpecifications);
  }

  /** The hashed text determines the manifest, so that a hash of texts without collisions is a digest of
      manifests without collisions. */
  lemma {:induction false} TextDigestIsCollisionFree(sha: Text -> Text)
    requires forall a, b :: sha(a) == sha(b) ==> a == b
    ensures CollisionFree(TextDigest(sha))
  {
    forall m, n | TextDigest(sha)(m) == TextDigest(sha)(n) ensures m == n {
      var x, y := ManifestDoc(m), ManifestDoc(n);
      PrintIsInjective(x, y);
      assert forall i :: 0 <= i < 11 ==> x.members[i].value == ManifestParts(m)[i];
      assert forall i :: 0 <= i < 11 ==> y.members[i].value == ManifestParts(n)[i];
      assert ManifestParts(m) == ManifestParts(n);
      SamePartsSameManifest(m, n);
    }
  }

  predicate NamesComponent(dependency: Text) {
    Lit("dq.") <= dependency
  }

  function Ids(stack: seq<Text>): set<Text> {
    set id | id in stack
  }

  function External(dependencies: seq<Text>): seq<Text> {
    if dependencies == [] then []
    else (if NamesComponent(dependencies[0]) then [] else [dependencies[0]]) + External(dependencies[1..])
  }

  /** `_subject_manifest`; the recursion consumes the installed ids that are not on the stack. */
  function SubjectManifest(cat: Installed, digest: Manifest -> Text, record: ComponentRecord, stack: seq<Text>)
      : Result<Manifest, Fault>
    decreases cat.Keys + {record.id} - Ids(stack), 0
  {
    if record.id in stack then Err(Cycle(stack + [record.id]))
    else if record.precheck.Some? then Err(ContractFault(record.precheck.value))
    else if record.dependsOn.None? then Err(ContractFault([]))
    else
      var inner := stack + [record.id];
      assert Ids(inner) == Ids(stack) + {record.id};
      assert record.id in cat.Keys + {record.id} - Ids(stack);
      match DependencyDigests(cat, digest, record.dependsOn.value, inner, map[])
      case Err(fault) => Err(fault)
      case Ok(digests) =>
        match record.local
        case Err(message) => Err(ContractFault(message))
        case Ok(local) => Ok(Manifest(local, digests, Sort(TextLess, External(record.dependsOn.value))))
  }

  /** The digest of one named dependency. */
  function DependencyDigest(cat: Installed, digest: Manifest -> Text, dependency: Text, stack: seq<Text>)
      : Result<Text, Fault>
    decreases cat.Keys - Ids(stack), 1
  {
    if dependency !in cat then Err(NotInstalled(dependency))
    else
      assert cat.Keys + {cat[dependency].id} - Ids(stack) == cat.Keys - Ids(stack);
      match SubjectManifest(cat, digest, cat[dependency], stack)
      case Err(fault) => Err(fault)
      case Ok(manifest) => Ok(digest(manifest))
  }

  /** The digests found so far, extended by those of the remaining dependencies; the first failing
      dependency decides. */
  function DependencyDigests(cat: Installed, digest: Manifest -> Text, dependencies: seq<Text>, stack: seq<Text>,
                             found: map<Text, Text>): Result<map<Text, Text>, Fault>
    decreases cat.Keys - Ids(stack), 2, |dependencies|
  {
    if dependencies == [] then Ok(found)
    else if !NamesComponent(dependencies[0]) then DependencyDigests(cat, digest, dependencies[1..], stack, found)
    else
      match DependencyDigest(cat, digest, dependencies[0], stack)
      case Err(fault) => Err(fault)
      case Ok(d) => DependencyDigests(cat, digest, dependencies[1..], stack, found[dependencies[0] := d])
  }

  method ComputeManifest(cat: Installed, digest: Manifest -> Text, record: ComponentRecord, stack: seq<Text>)
      returns (r: Result<Manifest, Fault>)
    ensures r == SubjectManifest(cat, digest, record, stack)
    decreases cat.Keys + {record.id} - Ids(stack), 0
  {
    if record.id in stack {
      return Err(Cycle(stack + [record.id]));
    }
    if record.precheck.Some? {
      return Err(ContractFault(record.precheck.value));
    }
    if record.dependsOn.None? {
      return Err(ContractFault([]));
    }
    var current := stack + [record.id];
    assert Ids(current) == Ids(stack) + {record.id};
    assert record.id in cat.Keys + {record.id} - Ids(stack);
    var digests, external := WalkDependencies(cat, digest, record.dependsOn.value, current);
    if digests.Err? {
      return Err(digests.error);
    }
    if record.local.Err? {
      return Err(ContractFault(record.local.error));
    }
    r := Ok(Manifest(record.local.value, digests.value, Sort(TextLess, external)));
  }

  method ComputeDigest(cat: Installed, digest: Manifest -> Text, dependency: Text, current: seq<Text>)
      returns (r: Result<Text, Fault>)
    ensures r == DependencyDigest(cat, digest, dependency, current)
    decreases cat.Keys - Ids(current), 1
  {
    if dependency !in cat {
      return Err(NotInstalled(dependency));
    }
    assert cat.Keys + {cat[dependency].id} - Ids(current) == cat.Keys - Ids(current);
    var manifest := ComputeManifest(cat, digest, cat[dependency], current);
    r := match manifest case Err(fault) => Err(fault) case Ok(m) => Ok(digest(m));
  }

  lemma {:induction false} ExternalStep(external: seq<Text>, dependencies: seq<Text>, i: nat)
    requires i < |dependencies|
    ensures var next := if NamesComponent(dependencies[i]) then external else external + [dependencies[i]];
      external + External(dependencies[i..]) == next + External(dependencies[i + 1..])
  {
    assert dependencies[i..][1..] == dependencies[i + 1..];
  }

  lemma {:induction false} DigestsStep(cat: Installed, digest: Manifest -> Text, dependencies: seq<Text>,
                                       stack: seq<Text>, found: map<Text, Text>, i: nat)
    requires i < |dependencies|
    ensures DependencyDigests(cat, digest, dependencies[i..], stack, found) ==
            if !NamesComponent(dependencies[i]) then DependencyDigests(cat, digest, dependencies[i + 1..], stack, found)
            else
              match DependencyDigest(cat, digest, dependencies[i], stack)
              case Err(fault) => Err(fault)
              case Ok(d) => DependencyDigests(cat, digest, dependencies[i + 1..], stack, found[dependencies[i] := d])
  {
    assert dependencies[i..][1..] == dependencies[i + 1..];
  }

  method WalkDependencies(cat: Installed, digest: Manifest -> Text, dependencies: seq<Text>, current: seq<Text>)
      returns (r: Result<map<Text, Text>, Fault>, external: seq<Text>)
    ensures r == DependencyDigests(cat, digest, dependencies, current, map[])
    ensures r.Ok? ==> external == External(dependencies)
    decreases cat.Keys - Ids(current), 2
  {
    var digests: map<Text, Text> := map[];
    external := [];
    ghost var all := DependencyDigests(cat, digest, dependencies, current, map[]);
    ghost var allExternal := External(dependencies);
    for i := 0 to |dependencies|
      invariant all == DependencyDigests(cat, digest, dependencies[i..], current, digests)
      invariant allExternal == external + External(dependencies[i..])
    {
      DigestsStep(cat, digest, dependencies, current, digests, i);
      ExternalStep(external, dependencies, i);
      if NamesComponent(dependencies[i]) {
        var d := ComputeDigest(cat, digest, dependencies[i], current);
        if d.Err? {
          return Err(d.error), external;
        }
        digests := digests[dependencies[i] := d.value];
      } else {
        external := external + [dependencies[i]];
      }
    }
    r := Ok(digests);
  }

  // ----- what a successful walk says about one dependency -----

  ghost predicate DependsOn(record: ComponentRecord, id: Text) {
    record.dependsOn.Some? && id in record.dependsOn.value && NamesComponent(id)
  }

  /** A successful walk has one digest for each dependency it names, and no other. */
  lemma {:induction false} DigestsAreOfDependencies(cat: Installed, digest: Manifest -> Text, dependencies: seq<Text>,
                                                    stack: seq<Text>, found: map<Text, Text>)
    requires DependencyDigests(cat, digest, dependencies, stack, found).Ok?
    ensures var digests := DependencyDigests(cat, digest, dependencies, stack, found).value;
      && (forall id :: id in digests <==> id in found || (id in dependencies && NamesComponent(id)))
      && (forall id :: id in digests ==>
            if id in dependencies && NamesComponent(id) then DependencyDigest(cat, digest, id, stack) == Ok(digests[id])
            else digests[id] == found[id])
    decreases |dependencies|
  {
    if dependencies != [] {
      var id, rest := dependencies[0], dependencies[1..];
      assert dependencies == [id] + rest;
      if NamesComponent(id) {
        DigestsAreOfDependencies(cat, digest, rest, stack,
                                 found[id := DependencyDigest(cat, digest, id, stack).value]);
      } else {
        DigestsAreOfDependencies(cat, digest, rest, stack, found);
      }
    }
  }

  lemma {:induction false} DependencyOfManifest(cat: Installed, digest: Manifest -> Text, record: ComponentRecord,
                                                stack: seq<Text>)
    requires SubjectManifest(cat, digest, record, stack).Ok?
    ensures record.id !in stack
    ensures var m := SubjectManifest(cat, digest, record, stack).value;
      && m.componentDependencies.Keys == set id | id in record.dependsOn.value && NamesComponent(id)
      && forall id :: id in m.componentDependencies ==>
           DependencyDigest(cat, digest, id, stack + [record.id]) == Ok(m.componentDependencies[id])
  {
    DigestsAreOfDependencies(cat, digest, record.dependsOn.value, stack + [record.id], map[]);
  }

  // ----- what a manifest holds -----

  lemma {:induction false} ExternalCounts(dependencies: seq<Text>, t: Text)
    ensures multiset(External(dependencies))[t]
            == if Lit("dq.") <= t then 0 else multiset(dependencies)[t]
  {
    if dependencies != [] {
      ExternalCounts(dependencies[1..], t);
      assert dependencies == [dependencies[0]] + dependencies[1..];
    }
  }

  /** The external specifications are the dependencies that name no component, each as often as it is
      listed, in the order of their bytes. */
  ghost predicate AreExternal(specifications: seq<Text>, dependencies: seq<Text>) {
    && Nondecreasing(specifications)
    && forall t :: multiset(specifications)[t] == if Lit("dq.") <= t then 0 else multiset(dependencies)[t]
  }

  /** A manifest holds the record's own parts, its external specifications, and under each component it
      names the digest of that component's manifest, and nothing else. */
  lemma {:induction false} ManifestHoldsRecord(cat: Installed, digest: Manifest -> Text, record: ComponentRecord,
                                               stack: seq<Text>)
    requires SubjectManifest(cat, digest, record, stack).Ok?
    ensures record.precheck.None? && record.dependsOn.Some?
    ensures var m := SubjectManifest(cat, digest, record, stack).value;
      && record.local == Ok(m.local)
      && AreExternal(m.externalSpecifications, record.dependsOn.value)
      && (forall id :: id in m.componentDependencies <==> id in record.dependsOn.value && Lit("dq.") <= id)
      && (forall id :: id in m.componentDependencies ==>
            && id in cat
            && var below := SubjectManifest(cat, digest, cat[id], stack + [record.id]);
               below.Ok? && m.componentDependencies[id] == digest(below.value))
  {
    DependencyOfManifest(cat, digest, record, stack);
    var dependencies := record.dependsOn.value;
    SortIsNondecreasing(External(dependencies));
    SortIsPermutation(TextLess, External(dependencies));
    forall t ensures multiset(Sort(TextLess, External(dependencies)))[t]
                     == if Lit("dq.") <= t then 0 else multiset(dependencies)[t]
    {
      ExternalCounts(dependencies, t);
    }
  }

  // ----- the ancestors only matter for finding cycles -----

  /** A subject that has a manifest has the same one below fewer ancestors. */
  lemma {:induction false} AncestorsDoNotMatter(cat: Installed, digest: Manifest -> Text, record: ComponentRecord,
                                                stack: seq<Text>, fewer: seq<Text>)
    requires Ids(fewer) <= Ids(stack)
    requires SubjectManifest(cat, digest, record, stack).Ok?
    ensures SubjectManifest(cat, digest, record, fewer) == SubjectManifest(cat, digest, record, stack)
    decreases cat.Keys + {record.id} - Ids(stack), 0
  {
    assert record.id in fewer ==> record.id in Ids(fewer);
    var inner := stack + [record.id];
    assert Ids(inner) == Ids(stack) + {record.id};
    assert Ids(fewer + [record.id]) <= Ids(inner);
    assert record.id in cat.Keys + {record.id} - Ids(stack);
    AncestorsDoNotMatterBelow(cat, digest, record.dependsOn.value, inner, fewer + [record.id], map[]);
  }

  lemma {:induction false} AncestorsDoNotMatterBelow(cat: Installed, digest: Manifest -> Text, dependencies: seq<Text>,
                                                     stack: seq<Text>, fewer: seq<Text>, found: map<Text, Text>)
    requires Ids(fewer) <= Ids(stack)
    requires DependencyDigests(cat, digest, dependencies, stack, found).Ok?
    ensures DependencyDigests(cat, digest, dependencies, fewer, found)
            == DependencyDigests(cat, digest, dependencies, stack, found)
    decreases cat.Keys - Ids(stack), 2, |dependencies|
  {
    if dependencies != [] {
      var id := dependencies[0];
      if NamesComponent(id) {
        assert cat.Keys + {cat[id].id} - Ids(stack) == cat.Keys - Ids(stack);
        AncestorsDoNotMatter(cat, digest, cat[id], stack, fewer);
        AncestorsDoNotMatterBelow(cat, digest, dependencies[1..], stack, fewer,
                                  found[id := DependencyDigest(cat, digest, id, stack).value]);
      } else {
        AncestorsDoNotMatterBelow(cat, digest, dependencies[1..], stack, fewer, found);
      }
    }
  }

  // ----- paths through the dependency graph -----

  ghost predicate IsPath(cat: Installed, p: seq<Text>) {
    && p != []
    && (forall i :: 0 <= i < |p| ==> p[i] in cat)
    && (forall i :: 0 < i < |p| ==> DependsOn(cat[p[i - 1]], p[i]))
  }

  /** The path runs back into itself. */
  ghost predicate ClosesCycle(p: seq<Text>) {
    p != [] && p[|p| - 1] in p[..|p| - 1]
  }

  /** A contract that raises nothing by itself and names installed components only. */
  ghost predicate IsSound(cat: Installed, id: Text)
    requires id in cat
  {
    var r := cat[id];
    && r.precheck.None? && r.dependsOn.Some? && r.local.Ok?
    && forall d :: DependsOn(r, d) ==> d in cat
  }

  ghost predicate IsBad(cat: Installed, p: seq<Text>) {
    IsPath(cat, p) && (ClosesCycle(p) || !IsSound(cat, p[|p| - 1]))
  }

  lemma {:induction false} FaultComesFromDependency(cat: Installed, digest: Manifest -> Text, dependencies: seq<Text>,
                                                    stack: seq<Text>, found: map<Text, Text>) returns (id: Text)
    requires DependencyDigests(cat, digest, dependencies, stack, found).Err?
    ensures id in dependencies && NamesComponent(id)
    ensures DependencyDigest(cat, digest, id, stack)
            == Err(DependencyDigests(cat, digest, dependencies, stack, found).error)
    decreases |dependencies|
  {
    id := dependencies[0];
    if !NamesComponent(id) {
      id := FaultComesFromDependency(cat, digest, dependencies[1..], stack, found);
    } else if DependencyDigest(cat, digest, id, stack).Ok? {
      id := FaultComesFromDependency(cat, digest, dependencies[1..], stack,
                                     found[id := DependencyDigest(cat, digest, id, stack).value]);
    }
  }

  /** A failure is the subject's own, or that of one of its dependencies. */
  lemma {:induction false} FaultOfSubject(cat: Installed, digest: Manifest -> Text, id: Text, stack: seq<Text>)
      returns (d: Option<Text>)
    requires id in cat && id !in stack && SubjectManifest(cat, digest, cat[id], stack).Err?
    ensures var fault := SubjectManifest(cat, digest, cat[id], stack).error;
      match d
      case None => !IsSound(cat, id) && !fault.Cycle?
      case Some(below) =>
        && below in cat && DependsOn(cat[id], below)
        && SubjectManifest(cat, digest, cat[below], stack + [id]) == Err(fault)
  {
    d := None;
    var record, inner := cat[id], stack + [id];
    if record.precheck.None? && record.dependsOn.Some?
       && DependencyDigests(cat, digest, record.dependsOn.value, inner, map[]).Err? {
      var below := FaultComesFromDependency(cat, digest, record.dependsOn.value, inner, map[]);
      assert DependsOn(record, below);
      if below in cat {
        d := Some(below);
      }
    }
  }

  /** Every failure has a path to blame; a reported cycle is such a path. */
  lemma {:induction false} FaultHasPath(cat: Installed, digest: Manifest -> Text, id: Text, stack: seq<Text>)
      returns (p: seq<Text>)
    requires id in cat && IsPath(cat, stack + [id])
    requires SubjectManifest(cat, digest, cat[id], stack).Err?
    ensures stack + [id] <= p && IsBad(cat, p)
    ensures var fault := SubjectManifest(cat, digest, cat[id], stack).error;
      if fault.Cycle? then p == fault.path && ClosesCycle(p) else !IsSound(cat, p[|p| - 1])
    decreases cat.Keys - Ids(stack)
  {
    var inner := stack + [id];
    p := inner;
    if id in stack {
      assert p[..|p| - 1] == stack;
    } else {
      var d := FaultOfSubject(cat, digest, id, stack);
      if d.Some? {
        assert Ids(inner) == Ids(stack) + {id};
        assert IsPath(cat, inner + [d.value]);
        p := FaultHasPath(cat, digest, d.value, inner);
      }
    }
  }

  lemma {:induction false} ManifestsAlongPath(cat: Installed, digest: Manifest -> Text, p: seq<Text>, n: nat)
    requires IsPath(cat, p) && n < |p|
    requires SubjectManifest(cat, digest, cat[p[0]], []).Ok?
    ensures SubjectManifest(cat, digest, cat[p[n]], p[..n]).Ok?
  {
    if n > 0 {
      ManifestsAlongPath(cat, digest, p, n - 1);
      DependencyOfManifest(cat, digest, cat[p[n - 1]], p[..n - 1]);
      assert DependsOn(cat[p[n - 1]], p[n]);
      assert p[n] in SubjectManifest(cat, digest, cat[p[n - 1]], p[..n - 1]).value.componentDependencies;
      assert p[..n] == p[..n - 1] + [cat[p[n - 1]].id];
    } else {
      assert p[..n] == [];
    }
  }

  /** A subject has a manifest exactly when no path of dependencies from it closes a cycle or ends
      at a component whose contract is broken or names something that is not installed. */
  lemma {:induction false} HasManifestIff(cat: Installed, digest: Manifest -> Text, id: Text)
    requires id in cat
    ensures SubjectManifest(cat, digest, cat[id], []).Ok? <==> !exists p :: IsBad(cat, p) && p[0] == id
  {
    if SubjectManifest(cat, digest, cat[id], []).Ok? {
      forall p | IsBad(cat, p) && p[0] == id ensures false {
        var n := |p| - 1;
        ManifestsAlongPath(cat, digest, p, n);
        DependencyOfManifest(cat, digest, cat[p[n]], p[..n]);
        SoundIfManifest(cat, digest, p[n], p[..n]);
      }
    } else {
      assert [] + [id] == [id];
      var p := FaultHasPath(cat, digest, id, []);
      assert IsBad(cat, p) && p[0] == id;
    }
  }

  lemma {:induction false} SoundIfManifest(cat: Installed, digest: Manifest -> Text, id: Text, stack: seq<Text>)
    requires id in cat && SubjectManifest(cat, digest, cat[id], stack).Ok?
    ensures IsSound(cat, id)
  {
    DependencyOfManifest(cat, digest, cat[id], stack);
    var m := SubjectManifest(cat, digest, cat[id], stack).value;
    forall d | DependsOn(cat[id], d) ensures d in cat {
      assert d in m.componentDependencies;
    }
  }

  /** In a catalog of sound contracts the only failure is a cycle, and it is reported exactly when
      one can be reached, along a path that closes it. */
  lemma {:induction false} CycleIffReachable(cat: Installed, digest: Manifest -> Text, id: Text)
    requires id in cat && forall c :: c in cat ==> IsSound(cat, c)
    ensures var r := SubjectManifest(cat, digest, cat[id], []);
      && (r.Err? <==> exists p :: IsPath(cat, p) && p[0] == id && ClosesCycle(p))
      && (r.Err? ==> r.error.Cycle? && var p := r.error.path; IsPath(cat, p) && p[0] == id && ClosesCycle(p))
  {
    HasManifestIff(cat, digest, id);
    if SubjectManifest(cat, digest, cat[id], []).Err? {
      assert [] + [id] == [id];
      var p := FaultHasPath(cat, digest, id, []);
    } else if p :| IsPath(cat, p) && p[0] == id && ClosesCycle(p) {
      assert IsBad(cat, p);
    }
  }

  // ----- the hash pins everything reachable, and nothing else -----

  function SubjectHash(cat: Installed, digest: Manifest -> Text, id: Text): Result<Text, Fault> {
    if id !in cat then Err(NotInstalled(id))
    else
      match SubjectManifest(cat, digest, cat[id], [])
      case Err(fault) => Err(fault)
      case Ok(manifest) => Ok(digest(manifest))
  }

  /** The manifest of a subject holds the hash of each of its dependencies. */
  lemma {:induction false} HashOfDependency(cat: Installed, digest: Manifest -> Text, id: Text, dependency: Text)
    requires SubjectHash(cat, digest, id).Ok?
    ensures var m := SubjectManifest(cat, digest, cat[id], []).value;
      && (DependsOn(cat[id], dependency) <==> dependency in m.componentDependencies)
      && (DependsOn(cat[id], dependency) ==>
            SubjectHash(cat, digest, dependency) == Ok(m.componentDependencies[dependency]))
  {
    assert [] + [id] == [id];
    DependencyOfManifest(cat, digest, cat[id], []);
    if DependsOn(cat[id], dependency) {
      assert dependency in SubjectManifest(cat, digest, cat[id], []).value.componentDependencies;
      AncestorsDoNotMatter(cat, digest, cat[dependency], [id], []);
    }
  }

  /** Equal hashes: every dependency reachable in one catalog is reachable along the same path in
      the other, and has the same manifest there. */
  lemma {:induction false} EqualHashesEqualManifests(a: Installed, b: Installed, digest: Manifest -> Text, p: seq<Text>)
    requires CollisionFree(digest) && IsPath(a, p)
    requires SubjectHash(a, digest, p[0]).Ok? && SubjectHash(a, digest, p[0]) == SubjectHash(b, digest, p[0])
    ensures IsPath(b, p)
    ensures var last := p[|p| - 1];
      && SubjectManifest(a, digest, a[last], []).Ok?
      && SubjectManifest(a, digest, a[last], []) == SubjectManifest(b, digest, b[last], [])
    decreases |p|
  {
    if |p| > 1 {
      var id, next := p[0], p[1];
      assert DependsOn(a[id], next);
      HashOfDependency(a, digest, id, next);
      HashOfDependency(b, digest, id, next);
      EqualHashesEqualManifests(a, b, digest, p[1..]);
      assert IsPath(b, [id] + p[1..]) && [id] + p[1..] == p;
    }
  }

  /** Two records contribute the same to a manifest: the same own parts, the same component dependencies,
      and the same external specifications, as often. */
  ghost predicate SameContribution(a: ComponentRecord, b: ComponentRecord) {
    && a.local == b.local && a.dependsOn.Some? && b.dependsOn.Some?
    && (forall id :: DependsOn(a, id) <==> DependsOn(b, id))
    && (forall t :: !(Lit("dq.") <= t) ==> multiset(a.dependsOn.value)[t] == multiset(b.dependsOn.value)[t])
  }

  /** Equal hashes: the components reached along any path contribute the same. */
  lemma {:induction false} EqualHashesEqualRecords(a: Installed, b: Installed, digest: Manifest -> Text, p: seq<Text>)
    requires CollisionFree(digest) && IsPath(a, p)
    requires SubjectHash(a, digest, p[0]).Ok? && SubjectHash(a, digest, p[0]) == SubjectHash(b, digest, p[0])
    ensures IsPath(b, p) && SameContribution(a[p[|p| - 1]], b[p[|p| - 1]])
  {
    EqualHashesEqualManifests(a, b, digest, p);
    var last := p[|p| - 1];
    ManifestHoldsRecord(a, digest, a[last], []);
    ManifestHoldsRecord(b, digest, b[last], []);
    var m := SubjectManifest(a, digest, a[last], []).value;
    forall id ensures DependsOn(a[last], id) <==> DependsOn(b[last], id) {
      assert id in m.componentDependencies <==> DependsOn(a[last], id);
    }
    forall t | !(Lit("dq.") <= t)
      ensures multiset(a[last].dependsOn.value)[t] == multiset(b[last].dependsOn.value)[t]
    {
      assert multiset(m.externalSpecifications)[t] == multiset(a[last].dependsOn.value)[t];
    }
  }

  ghost predicate Reaches(cat: Installed, id: Text, target: Text) {
    exists p :: IsPath(cat, p) && p[0] == id && p[|p| - 1] == target
  }

  lemma {:induction false} ReachesNext(cat: Installed, id: Text, next: Text)
    requires id in cat && next in cat && DependsOn(cat[id], next)
    ensures forall t :: Reaches(cat, next, t) ==> Reaches(cat, id, t)
    ensures Reaches(cat, id, id)
  {
    assert IsPath(cat, [id]);
    forall t | Reaches(cat, next, t) ensures Reaches(cat, id, t) {
      var p :| IsPath(cat, p) && p[0] == next && p[|p| - 1] == t;
      var q := [id] + p;
      forall i | 0 < i < |q| ensures DependsOn(cat[q[i - 1]], q[i]) {
        if i > 1 { assert DependsOn(cat[p[i - 2]], p[i - 1]); }
      }
      assert IsPath(cat, q);
    }
  }

  /** A manifest depends on the reachable components only. */
  lemma {:induction false} OnlyReachableMatters(a: Installed, b: Installed, digest: Manifest -> Text, id: Text,
                                                stack: seq<Text>)
    requires id in a && SubjectManifest(a, digest, a[id], stack).Ok?
    requires forall t :: Reaches(a, id, t) ==> t in b && b[t] == a[t]
    ensures id in b && SubjectManifest(b, digest, b[id], stack) == SubjectManifest(a, digest, a[id], stack)
    decreases a.Keys - Ids(stack), 0
  {
    assert IsPath(a, [id]);
    assert Reaches(a, id, id);
    var inner := stack + [id];
    assert Ids(inner) == Ids(stack) + {id};
    assert id in a.Keys - Ids(stack);
    forall d | DependsOn(a[id], d) && d in a ensures forall t :: Reaches(a, d, t) ==> t in b && b[t] == a[t] {
      ReachesNext(a, id, d);
    }
    OnlyReachableMattersBelow(a, b, digest, a[id], a[id].dependsOn.value, inner, map[]);
  }

  lemma {:induction false} OnlyReachableMattersBelow(a: Installed, b: Installed, digest: Manifest -> Text,
                                                     record: ComponentRecord, dependencies: seq<Text>,
                                                     stack: seq<Text>, found: map<Text, Text>)
    requires record.dependsOn.Some? && forall d :: d in dependencies ==> d in record.dependsOn.value
    requires DependencyDigests(a, digest, dependencies, stack, found).Ok?
    requires forall d, t :: DependsOn(record, d) && d in a && Reaches(a, d, t) ==> t in b && b[t] == a[t]
    ensures DependencyDigests(b, digest, dependencies, stack, found)
            == DependencyDigests(a, digest, dependencies, stack, found)
    decreases a.Keys - Ids(stack), 2, |dependencies|
  {
    if dependencies != [] {
      var d := dependencies[0];
      if NamesComponent(d) {
        assert DependsOn(record, d);
        OnlyReachableMatters(a, b, digest, d, stack);
        OnlyReachableMattersBelow(a, b, digest, record, dependencies[1..], stack,
                                  found[d := DependencyDigest(a, digest, d, stack).value]);
      } else {
        OnlyReachableMattersBelow(a, b, digest, record, dependencies[1..], stack, found);
      }
    }
  }

  // ----- the cache -----

  predicate IsName(t: Text) {
    && t != [] && 97 <= t[0] <= 122
    && forall i :: 0 < i < |t| ==> 97 <= t[i] <= 122 || 48 <= t[i] <= 57 || t[i] == 95
  }

  /** `^dq\.[a-z][a-z0-9_]*\.[a-z][a-z0-9_]*$` on the whole string. */
  predicate IsStableId(id: Text) {
    && NamesComponent(id)
    && exists dot :: 3 <= dot < |id| && id[dot] == 46 && IsName(id[3..dot]) && IsName(id[dot + 1..])
  }

  /** The installed components under each catalog root. */
  type Disk = map<Text, Installed>

  /** `_fresh_subject_hash` under one root; a root without contracts is an empty catalog. */
  function Fresh(disk: Disk, digest: Manifest -> Text, root: Text, id: Text): Result<Text, Fault> {
    SubjectHash(if root in disk then disk[root] else map[], digest, id)
  }

  /** `since` lists the contents the disk has had since the cache was last emptied. */
  datatype State = State(disk: Disk, cached: map<(Text, Text), Text>, since: seq<Disk>)

  datatype Event = Edit(disk: Disk) | Hash(root: Text, id: Text) | Invalidate | Verify(root: Text, id: Text)

  function Start(disk: Disk): State {
    State(disk, map[], [disk])
  }

  /** The answer to a call, if it has one. Failures are not cached. */
  function Answer(s: State, digest: Manifest -> Text, e: Event): Option<Result<Text, Fault>> {
    match e
    case Hash(root, id) =>
      Some(if IsStableId(id) && (root, id) in s.cached then Ok(s.cached[(root, id)])
        else Fresh(s.disk, digest, root, id))
    case Verify(root, id) => Some(if IsStableId(id) then Fresh(s.disk, digest, root, id) else Err(NotAStableId))
    case _ => None
  }

  function Remember(s: State, root: Text, id: Text, answer: Result<Text, Fault>): State {
    if IsStableId(id) && answer.Ok? then s.(cached := s.cached[(root, id) := answer.value]) else s
  }

  function Next(s: State, digest: Manifest -> Text, e: Event): State {
    match e
    case Edit(disk) => s.(disk := disk, since := s.since + [disk])
    case Hash(root, id) => Remember(s, root, id, Answer(s, digest, e).value)
    case Invalidate => s.(cached := map[], since := [s.disk])
    case Verify(root, id) =>
      if IsStableId(id) then Remember(s.(cached := map[], since := [s.disk]), root, id, Answer(s, digest, e).value)
      else s
  }

  function Run(s: State, digest: Manifest -> Text, events: seq<Event>): State {
    if events == [] then s else Next(Run(s, digest, events[..|events| - 1]), digest, events[|events| - 1])
  }

  ghost predicate WasFresh(since: seq<Disk>, digest: Manifest -> Text, root: Text, id: Text, hash: Text) {
    exists i :: 0 <= i < |since| && Fresh(since[i], digest, root, id) == Ok(hash)
  }

  ghost predicate EntryInv(s: State, digest: Manifest -> Text, root: Text, id: Text) {
    (root, id) in s.cached ==> WasFresh(s.since, digest, root, id, s.cached[(root, id)])
  }

  ghost predicate CacheInv(s: State, digest: Manifest -> Text) {
    && s.since != [] && s.since[|s.since| - 1] == s.disk
    && forall root, id :: EntryInv(s, digest, root, id)
  }

  lemma {:induction false} StillWasFresh(since: seq<Disk>, disk: Disk, digest: Manifest -> Text, root: Text, id: Text,
                                         hash: Text)
    requires WasFresh(since, digest, root, id, hash)
    ensures WasFresh(since + [disk], digest, root, id, hash)
  {
    var i :| 0 <= i < |since| && Fresh(since[i], digest, root, id) == Ok(hash);
    assert (since + [disk])[i] == since[i];
  }

  lemma {:induction false} FreshWasFresh(s: State, digest: Manifest -> Text, root: Text, id: Text)
    requires CacheInv(s, digest) && Fresh(s.disk, digest, root, id).Ok?
    ensures WasFresh(s.since, digest, root, id, Fresh(s.disk, digest, root, id).value)
  {
    assert Fresh(s.since[|s.since| - 1], digest, root, id) == Fresh(s.disk, digest, root, id);
  }

  lemma {:induction false} RememberKeepsCacheInv(s: State, digest: Manifest -> Text, root: Text, id: Text,
                                                 answer: Result<Text, Fault>)
    requires CacheInv(s, digest)
    requires answer.Ok? ==> WasFresh(s.since, digest, root, id, answer.value)
    ensures CacheInv(Remember(s, root, id, answer), digest)
  {
    if IsStableId(id) && answer.Ok? {
      CachingKeepsEntries(s, digest, root, id, answer.value);
    }
  }

  lemma {:induction false} EntryAfterCaching(s: State, digest: Manifest -> Text, root: Text, id: Text, hash: Text,
                                             other: Text, key: Text)
    requires (other, key) in s.cached ==> WasFresh(s.since, digest, other, key, s.cached[(other, key)])
    requires WasFresh(s.since, digest, root, id, hash)
    ensures EntryInv(s.(cached := s.cached[(root, id) := hash]), digest, other, key)
  {
    var t := s.(cached := s.cached[(root, id) := hash]);
    if (other, key) == (root, id) {
      assert t.cached[(other, key)] == hash;
    } else if (other, key) in t.cached {
      assert t.cached[(other, key)] == s.cached[(other, key)];
    }
  }

  lemma {:induction false} CachingKeepsEntries(s: State, digest: Manifest -> Text, root: Text, id: Text, hash: Text)
    requires CacheInv(s, digest) && WasFresh(s.since, digest, root, id, hash)
    ensures CacheInv(s.(cached := s.cached[(root, id) := hash]), digest)
  {
    var t := s.(cached := s.cached[(root, id) := hash]);
    forall other, key ensures EntryInv(t, digest, other, key) {
      assert EntryInv(s, digest, other, key);
      EntryAfterCaching(s, digest, root, id, hash, other, key);
    }
  }

  lemma {:induction false} NextKeepsCacheInv(s: State, digest: Manifest -> Text, e: Event)
    requires CacheInv(s, digest)
    ensures CacheInv(Next(s, digest, e), digest)
  {
    match e
    case Edit(disk) =>
      forall root, id ensures EntryInv(Next(s, digest, e), digest, root, id) {
        assert EntryInv(s, digest, root, id);
        if (root, id) in s.cached {
          StillWasFresh(s.since, disk, digest, root, id, s.cached[(root, id)]);
        }
      }
    case Invalidate =>
    case Hash(root, id) =>
      assert EntryInv(s, digest, root, id);
      if Fresh(s.disk, digest, root, id).Ok? { FreshWasFresh(s, digest, root, id); }
      RememberKeepsCacheInv(s, digest, root, id, Answer(s, digest, e).value);
    case Verify(root, id) =>
      var emptied := s.(cached := map[], since := [s.disk]);
      if IsStableId(id) {
        if Fresh(s.disk, digest, root, id).Ok? { FreshWasFresh(emptied, digest, root, id); }
        RememberKeepsCacheInv(emptied, digest, root, id, Answer(s, digest, e).value);
      }
  }

  lemma {:induction false} CacheInvAlways(disk: Disk, digest: Manifest -> Text, events: seq<Event>)
    ensures CacheInv(Run(Start(disk), digest, events), digest)
  {
    if events != [] {
      var n := |events| - 1;
      CacheInvAlways(disk, digest, events[..n]);
      NextKeepsCacheInv(Run(Start(disk), digest, events[..n]), digest, events[n]);
    }
  }

  /** After any run, a hash handed out is the hash of the disk as it was at some moment since the
      cache was last emptied; while the disk is unchanged since then, it is the fresh one. */
  lemma {:induction false} AnswersWereFresh(disk: Disk, digest: Manifest -> Text, events: seq<Event>, root: Text,
                                            id: Text)
    ensures var s := Run(Start(disk), digest, events);
      && CacheInv(s, digest)
      && (forall hash :: Answer(s, digest, Hash(root, id)) == Some(Ok(hash)) ==>
            WasFresh(s.since, digest, root, id, hash))
      && (s.since == [s.disk] ==> Answer(s, digest, Hash(root, id)) == Some(Fresh(s.disk, digest, root, id)))
  {
    CacheInvAlways(disk, digest, events);
    var s := Run(Start(disk), digest, events);
    if Fresh(s.disk, digest, root, id).Ok? { FreshWasFresh(s, digest, root, id); }
    assert EntryInv(s, digest, root, id);
  }

  /** `_cached_subject_hash` and its callers. The disk is passed in: it changes on its own. */
  class SubjectCache {
    var cached: map<(Text, Text), Text>

    constructor ()
      ensures cached == map[]
    {
      cached := map[];
    }

    method SubjectHash(disk: Disk, digest: Manifest -> Text, root: Text, id: Text) returns (r: Result<Text, Fault>)
      modifies this
      ensures var s := State(disk, old(cached), []);
        Some(r) == Answer(s, digest, Hash(root, id)) && cached == Next(s, digest, Hash(root, id)).cached
    {
      if !IsStableId(id) {
        return Fresh(disk, digest, root, id);
      }
      if (root, id) in cached {
        return Ok(cached[(root, id)]);
      }
      r := Fresh(disk, digest, root, id);
      if r.Ok? {
        cached := cached[(root, id) := r.value];
      }
    }

    method InvalidateSubjectCache()
      modifies this
      ensures cached == map[]
    {
      cached := map[];
    }

    method VerifySubject(disk: Disk, digest: Manifest -> Text, root: Text, id: Text) returns (r: Result<Text, Fault>)
      modifies this
      ensures var s := State(disk, old(cached), []);
        Some(r) == Answer(s, digest, Verify(root, id)) && cached == Next(s, digest, Verify(root, id)).cached
    {
      if !IsStableId(id) {
        return Err(NotAStableId);
      }
      InvalidateSubjectCache();
      r := SubjectHash(disk, digest, root, id);
    }
  }
}
