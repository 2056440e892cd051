/** Publishing into a session store that nothing interferes with succeeds (shared/session_cas.py:328-535). */
module SessionPublication {
  import opened Foundations
  import opened DataRecords
  import opened OperationRecords
  import opened CasEntries
  import opened CasWritten
  import opened SessionCas

  /** The session is open and the reference is new to it; the entry fits, staging and renaming succeed and
      no other entry appears. */
  predicate IsUndisturbed(s: State, env: Env, reference: Reference, size: nat, maximum: nat) {
    && !s.closed && reference !in s.corrupt && reference !in s.disk && reference !in s.references
    && s.used + size <= maximum && env.writes && env.renames && env.early.None? && env.late.None?
  }

  /** The state with one entry and its reference more. */
  function WithEntry(s: State, reference: Reference, e: Entry, size: nat): State {
    s.(references := s.references + {reference}, used := s.used + size, disk := s.disk[reference := e])
  }

  lemma {:induction false} FreshDataset(gate: Gate, s: State, env: Env, record: DatasetRecord, payload: Table,
                                        reference: Reference)
    requires gate.acceptDataset(record, payload) == Ok(reference)
    requires gate.loadDataset(gate.datasetFiles(record, payload), reference).Some?
    requires IsUndisturbed(s, env, reference, gate.datasetSize(record, payload), gate.session)
    ensures PublishDataset(gate, s, env, record, payload)
            == Step(WithEntry(s, reference, gate.datasetFiles(record, payload), gate.datasetSize(record, payload)),
                    Ok(reference))
  {
  }

  /** An accepted dataset whose documents are read back is published: its entry is on the disk, its
      reference is registered, and its bytes are charged. */
  lemma {:induction false} FreshDatasetIsPublished(store: Store, s: State, env: Env, record: DatasetRecord,
                                                   payload: Table, reference: Reference)
    requires AcceptDataset(store, record, payload) == Ok(reference) && DatasetReadsBack(store, record, payload)
    requires IsUndisturbed(s, env, reference, DatasetSize(store, record, payload), store.limits.session)
    ensures PublishDataset(GateOf(store), s, env, record, payload)
            == Step(WithEntry(s, reference, DatasetFiles(store, record, payload), DatasetSize(store, record, payload)),
                    Ok(reference))
  {
    DatasetEntryIff(store, DatasetFiles(store, record, payload), reference, StoredDataset(reference, record, payload));
    FreshDataset(GateOf(store), s, env, record, payload, reference);
  }

  /** The dataset behind an operation is none, or a registered one that loads. */
  ghost predicate HasDataset(gate: Gate, s: State, env: Env, record: OperationRecord, dataset: Option<StoredDataset>) {
    match record.binding.source
    case None => dataset.None?
    case Some(source) =>
      && source.ref.kind == DatasetKind && dataset.Some?
      && LoadDataset(gate, s, env, source.ref) == Step(s, Ok(dataset.value))
  }

  lemma {:induction false} FreshOperation(gate: Gate, s: State, env: Env, c: Content, e: Entry, reference: Reference,
                                          dataset: Option<StoredDataset>)
    requires gate.acceptOperation(c) == Ok(reference) && gate.operationFiles(c) == Some(e)
    requires gate.openOperation(e, reference).Some? && gate.openOperation(e, reference).value.record == c.record
    requires gate.finishOperation(gate.openOperation(e, reference).value, reference, dataset).Ok?
    requires HasDataset(gate, s, env, c.record, dataset)
    requires IsUndisturbed(s, env, reference, gate.operationSize(c), gate.session)
    ensures PublishOperation(gate, s, env, c)
            == Step(WithEntry(s, reference, e, gate.operationSize(c)), Ok(reference))
  {
    assert LoadOperationEntry(gate, s, env, e, reference)
        == OpenStep(s, Finished(gate, gate.openOperation(e, reference).value, reference, dataset));
  }

  lemma {:induction false} FreshOperationIsPublished(store: Store, s: State, env: Env, c: Content, e: Entry,
                                                     reference: Reference, dataset: Option<StoredDataset>)
    requires AcceptOperation(store, c) == Ok(reference) && OperationFiles(store, c) == Some(e)
    requires OperationReadsBack(store, c.record) && Reconciles(store, c, dataset)
    requires HasDataset(GateOf(store), s, env, c.record, dataset)
    requires IsUndisturbed(s, env, reference, OperationSize(store, c), store.limits.session)
    ensures PublishOperation(GateOf(store), s, env, c)
            == Step(WithEntry(s, reference, e, OperationSize(store, c)), Ok(reference))
  {
    OperationEntryIff(store, e, reference, c, dataset);
    FreshOperation(GateOf(store), s, env, c, e, reference, dataset);
  }

  /** The record is the one built over the content's own bundle. */
  ghost predicate IsBuilt(store: Store, c: Content, m: Manifest, dataset: Option<StoredDataset>) {
    var files := BundleFiles(c.manifestBytes, c.members);
    && NoFileIsADirectory(files)
    && Build(store.codec, m, files, c.record.binding, CompanionOf(dataset), c.record.compatibility) == Ok(c.record)
  }

  /** An operation whose record was built over its bundle and its dataset is published, if its content is
      within the store's limits and nothing interferes. */
  lemma {:induction false} BuiltOperationIsPublished(store: Store, s: State, env: Env, c: Content, m: Manifest,
                                                     reference: Reference, dataset: Option<StoredDataset>)
    requires IsBuilt(store, c, m, dataset)
    requires AcceptOperation(store, c) == Ok(reference) && OperationReadsBack(store, c.record)
    requires HasDataset(GateOf(store), s, env, c.record, dataset)
    requires IsUndisturbed(s, env, reference, OperationSize(store, c), store.limits.session)
    ensures OperationFiles(store, c).Some?
    ensures PublishOperation(GateOf(store), s, env, c)
            == Step(WithEntry(s, reference, OperationFiles(store, c).value, OperationSize(store, c)), Ok(reference))
  {
    BuiltReconciles(store, c, m, dataset);
    FreshOperationIsPublished(store, s, env, c, OperationFiles(store, c).value, reference, dataset);
  }

  lemma {:induction false} BuiltReconciles(store: Store, c: Content, m: Manifest, dataset: Option<StoredDataset>)
    requires IsBuilt(store, c, m, dataset)
    ensures Reconciles(store, c, dataset) && OperationFiles(store, c).Some?
  {
    var files: Bundle := BundleFiles(c.manifestBytes, c.members);
    BuildThenReconcile(store.codec, m, files, c.record.binding, CompanionOf(dataset), c.record.compatibility);
  }
}
