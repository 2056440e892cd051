/** The session store (shared/session_cas.py): publish, load, quarantine, cursors and close over a
    directory tree that anyone may change between the steps. */
module SessionCas {
  import opened Foundations
  import opened CanonicalJson
  import opened CanonicalHash
  import opened JsonObjects
  import opened DataRecords
  import opened OperationRecords
  import opened CasEntries
  import Cursor

  /** How the store verifies, sizes and writes entries, behind names of its own. */
  datatype Gate = Gate(
    session: nat,
    loadDataset: (Entry, Reference) -> Option<StoredDataset>,
    openOperation: (Entry, Reference) -> Option<Opened>,
    finishOperation: (Opened, Reference, Option<StoredDataset>) -> Result<StoredOperation, Failure>,
    acceptDataset: (DatasetRecord, Table) -> Result<Reference, Code>,
    datasetFiles: (DatasetRecord, Table) -> Entry,
    datasetSize: (DatasetRecord, Table) -> nat,
    acceptOperation: Content -> Result<Reference, Code>,
    operationFiles: Content -> Option<Entry>,
    operationSize: Content -> nat,
    entrySize: Entry -> nat)

  /** The gate of a store. */
  function GateOf(store: Store): Gate {
    Gate(store.limits.session,
         (e: Entry, r: Reference) => LoadDatasetDirectory(store, e, r),
         (e: Entry, r: Reference) => OpenOperation(store, e, r),
         (o: Opened, r: Reference, d: Option<StoredDataset>) => FinishOperation(store, o, r, d),
         (r: DatasetRecord, p: Table) => AcceptDataset(store, r, p),
         (r: DatasetRecord, p: Table) => DatasetFiles(store, r, p),
         (r: DatasetRecord, p: Table) => DatasetSize(store, r, p),
         (c: Content) => AcceptOperation(store, c),
         (c: Content) => OperationFiles(store, c),
         (c: Content) => OperationSize(store, c),
         (e: Entry) => EntrySize(e))
  }

  /** The process's own state, and the directory tree under `datasets` and `operations`. */
  datatype State = State(closed: bool, references: set<Reference>, corrupt: set<Reference>, used: nat,
                         disk: map<Reference, Entry>)

  /** What one step finds outside the process: the references of other sessions; whether staging,
      renaming into place, quarantining and removing succeed; whether the session directory is there
      with its valid marker; and an entry that appears at the destination after the stage was written,
      before or at the rename. */
  datatype Env = Env(outside: set<Reference>, writes: bool, renames: bool, moves: bool, removes: bool,
                     marked: bool, early: Option<Entry>, late: Option<Entry>)

  datatype Step<T> = Step(s: State, r: Result<T, Code>)

  // ----- shared steps -----

  function Quarantine(s: State, env: Env, reference: Reference): State {
    s.(corrupt := s.corrupt + {reference}, disk := if env.moves then s.disk - {reference} else s.disk)
  }

  predicate Fits(gate: Gate, s: State, size: nat) {
    s.used + size <= gate.session
  }

  function Register(gate: Gate, s: State, reference: Reference, size: nat): Step<Reference> {
    if reference in s.references then Step(s, Ok(reference))
    else if !Fits(gate, s, size) then Step(s, Err(CacheFull))
    else Step(s.(references := s.references + {reference}, used := s.used + size), Ok(reference))
  }

  /** `_resolve`: None when the reference may be read. */
  function Resolve(s: State, env: Env, reference: Reference, expected: RecordKind): Option<Code> {
    if s.closed then Some(ReferenceNotFound)
    else if reference.kind != expected then Some(InvalidToolRequest)
    else if reference in s.corrupt then Some(CorruptRecord)
    else if reference in s.references then None
    else if reference in env.outside then Some(ReferenceScopeDenied)
    else Some(ReferenceNotFound)
  }

  // ----- datasets -----

  function DatasetAt(gate: Gate, s: State, reference: Reference): Option<StoredDataset> {
    if reference in s.disk then gate.loadDataset(s.disk[reference], reference) else None
  }

  function LoadDataset(gate: Gate, s: State, env: Env, reference: Reference): Step<StoredDataset> {
    match Resolve(s, env, reference, DatasetKind)
    case Some(code) => Step(s, Err(code))
    case None =>
      match DatasetAt(gate, s, reference)
      case None => Step(Quarantine(s, env, reference), Err(CorruptRecord))
      case Some(stored) => Step(s, Ok(stored))
  }

  /** Stage, verify and move a new dataset entry into place. */
  function PlaceDataset(gate: Gate, s: State, env: Env, reference: Reference, written: Entry,
                        size: nat): Step<Reference> {
    if !Fits(gate, s, size) then Step(s, Err(CacheFull))
    else if !env.writes || gate.loadDataset(written, reference).None? then Step(s, Err(PublicationFailed))
    else if env.late.Some?
    then AdoptDataset(gate, s.(disk := s.disk[reference := env.late.value]), env, reference, size)
    else if !env.renames then Step(s, Err(PublicationFailed))
    else Register(gate, s.(disk := s.disk[reference := written]), reference, size)
  }

  /** The entry at the destination answers for a publication that found it there. */
  function AdoptDataset(gate: Gate, s: State, env: Env, reference: Reference, size: nat): Step<Reference> {
    match DatasetAt(gate, s, reference)
    case None => Step(Quarantine(s, env, reference), Err(CorruptRecord))
    case Some(_) => Register(gate, s, reference, size)
  }

  function PublishDataset(gate: Gate, s: State, env: Env, record: DatasetRecord, payload: Table): Step<Reference> {
    if s.closed then Step(s, Err(ReferenceNotFound))
    else
      match gate.acceptDataset(record, payload)
      case Err(code) => Step(s, Err(code))
      case Ok(reference) =>
        if reference in s.corrupt then Step(s, Err(CorruptRecord))
        else if reference in s.disk then AdoptDataset(gate, s, env, reference, gate.entrySize(s.disk[reference]))
        else
          PlaceDataset(gate, s, env, reference, gate.datasetFiles(record, payload), gate.datasetSize(record, payload))
  }

  // ----- operations -----

  datatype Opening = Loaded(stored: StoredOperation) | Raised(code: Code) | Broken

  datatype OpenStep = OpenStep(s: State, o: Opening)

  function Finished(gate: Gate, o: Opened, reference: Reference, dataset: Option<StoredDataset>): Opening {
    match gate.finishOperation(o, reference, dataset)
    case Err(failure) => Raised(CodeOf(failure))
    case Ok(stored) => Loaded(stored)
  }

  /** `_load_operation_directory`: loading the dataset behind the operation may quarantine it. */
  function LoadOperationEntry(gate: Gate, s: State, env: Env, e: Entry, reference: Reference): OpenStep {
    match gate.openOperation(e, reference)
    case None => OpenStep(s, Broken)
    case Some(o) =>
      match o.record.binding.source
      case None => OpenStep(s, Finished(gate, o, reference, None))
      case Some(source) =>
        if source.ref.kind == OperationKind then OpenStep(s, Broken)
        else
          var dataset := LoadDataset(gate, s, env, source.ref);
          match dataset.r
          case Err(code) => OpenStep(dataset.s, Raised(code))
          case Ok(stored) => OpenStep(dataset.s, Finished(gate, o, reference, Some(stored)))
  }

  function OperationAt(gate: Gate, s: State, env: Env, reference: Reference): OpenStep {
    if reference in s.disk then LoadOperationEntry(gate, s, env, s.disk[reference], reference) else OpenStep(s, Broken)
  }

  function LoadOperation(gate: Gate, s: State, env: Env, reference: Reference): Step<StoredOperation> {
    match Resolve(s, env, reference, OperationKind)
    case Some(code) => Step(s, Err(code))
    case None =>
      var opening := OperationAt(gate, s, env, reference);
      match opening.o
      case Loaded(stored) => Step(opening.s, Ok(stored))
      case _ => Step(Quarantine(opening.s, env, reference), Err(CorruptRecord))
  }

  /** The gate when the bundle of an entry, which one verification reads twice, is `second` of that
      entry at the second reading, the one that is reconciled with the record. */
  function Rereading(gate: Gate, second: Entry -> Bundle): Gate {
    gate.(openOperation := (e: Entry, r: Reference) => Reread(gate.openOperation(e, r), second(e)))
  }

  function Reread(o: Option<Opened>, second: Bundle): Option<Opened> {
    match o case None => None case Some(first) => Some(first.(files := second))
  }

  predicate SameContent(stored: StoredOperation, c: Content) {
    stored.record == c.record && stored.manifestBytes == c.manifestBytes && stored.members == c.members
  }

  /** Adopt an existing operation entry, which must hold exactly the given content if there is one. */
  function AdoptOperation(gate: Gate, s: State, env: Env, reference: Reference, c: Option<Content>, size: nat)
      : Step<Reference>
  {
    var opening := OperationAt(gate, s, env, reference);
    match opening.o
    case Loaded(stored) =>
      if c.Some? && !SameContent(stored, c.value) then Step(opening.s, Err(PublicationFailed))
      else Register(gate, opening.s, reference, size)
    case _ => Step(Quarantine(opening.s, env, reference), Err(CorruptRecord))
  }

  /** Moving a verified stage into place. */
  function PlaceOperation(gate: Gate, s: State, env: Env, reference: Reference, c: Content, written: Entry, size: nat)
      : Step<Reference>
  {
    if env.early.Some? then
      var found := s.(disk := s.disk[reference := env.early.value]);
      AdoptOperation(gate, found, env, reference, Some(c), gate.entrySize(env.early.value))
    else if env.late.Some? then
      AdoptOperation(gate, s.(disk := s.disk[reference := env.late.value]), env, reference, None, size)
    else if !env.renames then Step(s, Err(PublicationFailed))
    else Register(gate, s.(disk := s.disk[reference := written]), reference, size)
  }

  /** Stage, verify and move a new operation entry into place. */
  function StageOperation(gate: Gate, s: State, env: Env, reference: Reference, c: Content): Step<Reference> {
    var size, written := gate.operationSize(c), gate.operationFiles(c);
    if !Fits(gate, s, size) then Step(s, Err(CacheFull))
    else if !env.writes || written.None? then Step(s, Err(PublicationFailed))
    else
      var staged := LoadOperationEntry(gate, s, env, written.value, reference);
      match staged.o
      case Broken => Step(staged.s, Err(PublicationFailed))
      case Raised(code) => Step(staged.s, Err(code))
      case Loaded(_) => PlaceOperation(gate, staged.s, env, reference, c, written.value, size)
  }

  function PublishOperation(gate: Gate, s: State, env: Env, c: Content): Step<Reference> {
    if s.closed then Step(s, Err(ReferenceNotFound))
    else
      match gate.acceptOperation(c)
      case Err(code) => Step(s, Err(code))
      case Ok(reference) =>
        if reference in s.corrupt then Step(s, Err(CorruptRecord))
        else if reference in s.disk then
          AdoptOperation(gate, s, env, reference, Some(c), gate.entrySize(s.disk[reference]))
        else StageOperation(gate, s, env, reference, c)
  }

  // ----- cursors and close -----

  function EncodeCursor(session: Cursor.Session, s: State, env: Env, reference: Reference, view: Text,
                        selector: Option<Text>, next: int): Result<Text, Code>
  {
    if s.closed then Err(ReferenceNotFound)
    else if reference in s.corrupt then Err(CorruptRecord)
    else if reference !in s.references then
      Err(if reference in env.outside then ReferenceScopeDenied else ReferenceNotFound)
    else
      match Cursor.EncodeToken(session, ReferenceText(reference), view, selector, next)
      case None => Err(InvalidToolRequest)
      case Some(token) => Ok(token)
  }

  function DecodeCursor(session: Cursor.Session, s: State, token: Text, reference: Reference, view: Text,
                        selector: Option<Text>): Result<nat, Code>
  {
    if s.closed then Err(ReferenceNotFound)
    else
      match Cursor.DecodeToken(session, token, ReferenceText(reference), view, selector)
      case None => Err(InvalidToolRequest)
      case Some(next) =>
        if reference !in s.references || reference in s.corrupt then Err(InvalidToolRequest) else Ok(next)
  }

  /** Without a valid marker the tree is left alone, and that is a success. */
  function Close(s: State, env: Env): Step<()> {
    if s.closed then Step(s, Ok(()))
    else
      var ended := s.(closed := true, references := {});
      if !env.marked then Step(ended, Ok(()))
      else if env.removes then Step(ended.(disk := map[]), Ok(()))
      else Step(ended, Err(PublicationFailed))
  }

  // ----- the store as an object -----

  /** Which sessions hold which reference. */
  type Holders = map<Reference, set<Text>>

  function HoldersOf(holders: Holders, reference: Reference): set<Text> {
    if reference in holders then holders[reference] else {}
  }

  /** The references some other session holds. */
  function KnownOutside(holders: Holders, id: Text): set<Reference> {
    set r | r in holders && holders[r] - {id} != {}
  }

  /** One more holder of some references. */
  function WithHolder(holders: Holders, id: Text, added: set<Reference>): Holders {
    map r | r in holders.Keys + added :: HoldersOf(holders, r) + if r in added then {id} else {}
  }

  /** One session dropped, and with it the references only it held. */
  function Without(holders: Holders, id: Text): Holders {
    map r | r in holders && holders[r] - {id} != {} :: holders[r] - {id}
  }

  /** Process-local knowledge of which sessions hold which reference. */
  class SessionScopeRegistry {
    var sessions: Holders

    constructor ()
      ensures sessions == map[]
    {
      sessions := map[];
    }

    method Register(sessionId: Text, reference: Reference)
      modifies this
      ensures sessions == WithHolder(old(sessions), sessionId, {reference})
      ensures forall r ::
                HoldersOf(sessions, r) == HoldersOf(old(sessions), r) + if r == reference then {sessionId} else {}
    {
      ghost var expected := WithHolder(sessions, sessionId, {reference});
      sessions := sessions[reference := HoldersOf(sessions, reference) + {sessionId}];
      assert sessions.Keys == expected.Keys;
      assert forall r :: r in sessions ==> sessions[r] == expected[r];
    }

    /** A reference is known outside a session exactly when another session holds it. */
    method IsKnownOutside(sessionId: Text, reference: Reference) returns (known: bool)
      ensures known <==> reference in KnownOutside(sessions, sessionId)
      ensures known <==> exists other :: other in HoldersOf(sessions, reference) && other != sessionId
    {
      var others := HoldersOf(sessions, reference) - {sessionId};
      known := others != {};
      if known {
        ghost var other :| other in others;
      } else {
        assert forall other :: other in HoldersOf(sessions, reference) ==> other in others || other == sessionId;
      }
    }

    /** The session holds nothing any more, and no reference is kept without a holder. */
    method UnregisterSession(sessionId: Text)
      modifies this
      ensures sessions == Without(old(sessions), sessionId)
      ensures forall r :: HoldersOf(sessions, r) == HoldersOf(old(sessions), r) - {sessionId}
    {
      ghost var expected := Without(sessions, sessionId);
      var left := map r | r in sessions :: sessions[r] - {sessionId};
      sessions := map r | r in left && left[r] != {} :: left[r];
      assert sessions == expected;
    }
  }

  class SessionCas {
    const gate: Gate
    var closed: bool
    var references: set<Reference>
    var corruptReferences: set<Reference>
    var usedBytes: nat
    var disk: map<Reference, Entry>

    constructor (gate: Gate, disk: map<Reference, Entry>)
      ensures this.gate == gate && Abstract() == State(false, {}, {}, 0, disk)
    {
      this.gate := gate;
      closed, references, corruptReferences, usedBytes := false, {}, {}, 0;
      this.disk := disk;
    }

    function Abstract(): State
      reads this
    {
      State(closed, references, corruptReferences, usedBytes, disk)
    }

    method QuarantineEntry(env: Env, reference: Reference)
      modifies this
      ensures Abstract() == Quarantine(old(Abstract()), env, reference)
    {
      corruptReferences := corruptReferences + {reference};
      if env.moves {
        disk := disk - {reference};
      }
    }

    method RegisterReference(reference: Reference, size: nat) returns (r: Result<Reference, Code>)
      modifies this
      ensures Step(Abstract(), r) == Register(gate, old(Abstract()), reference, size)
    {
      if reference !in references {
        if usedBytes + size > gate.session {
          return Err(CacheFull);
        }
        references := references + {reference};
        usedBytes := usedBytes + size;
      }
      r := Ok(reference);
    }

    method LoadDatasetRecord(env: Env, reference: Reference) returns (r: Result<StoredDataset, Code>)
      modifies this
      ensures Step(Abstract(), r) == LoadDataset(gate, old(Abstract()), env, reference)
    {
      var refused := Resolve(Abstract(), env, reference, DatasetKind);
      if refused.Some? {
        return Err(refused.value);
      }
      var stored := DatasetAt(gate, Abstract(), reference);
      if stored.None? {
        QuarantineEntry(env, reference);
        return Err(CorruptRecord);
      }
      r := Ok(stored.value);
    }

    method AdoptDatasetEntry(env: Env, reference: Reference, size: nat) returns (r: Result<Reference, Code>)
      modifies this
      ensures Step(Abstract(), r) == AdoptDataset(gate, old(Abstract()), env, reference, size)
    {
      var stored := DatasetAt(gate, Abstract(), reference);
      if stored.None? {
        QuarantineEntry(env, reference);
        return Err(CorruptRecord);
      }
      r := RegisterReference(reference, size);
    }

    method PublishDatasetRecord(env: Env, record: DatasetRecord, payload: Table) returns (r: Result<Reference, Code>)
      modifies this
      ensures Step(Abstract(), r) == PublishDataset(gate, old(Abstract()), env, record, payload)
    {
      if closed {
        return Err(ReferenceNotFound);
      }
      var accepted := gate.acceptDataset(record, payload);
      if accepted.Err? {
        return Err(accepted.error);
      }
      var reference := accepted.value;
      if reference in corruptReferences {
        return Err(CorruptRecord);
      }
      if reference in disk {
        r := AdoptDatasetEntry(env, reference, gate.entrySize(disk[reference]));
        return;
      }
      var size := gate.datasetSize(record, payload);
      if usedBytes + size > gate.session {
        return Err(CacheFull);
      }
      var stage := gate.datasetFiles(record, payload);
      if !env.writes || gate.loadDataset(stage, reference).None? {
        return Err(PublicationFailed);
      }
      if env.late.Some? {
        disk := disk[reference := env.late.value];
        r := AdoptDatasetEntry(env, reference, size);
        return;
      }
      if !env.renames {
        return Err(PublicationFailed);
      }
      disk := disk[reference := stage];
      r := RegisterReference(reference, size);
    }

    method OpenOperationEntry(env: Env, e: Entry, reference: Reference) returns (o: Opening)
      modifies this
      ensures OpenStep(Abstract(), o) == LoadOperationEntry(gate, old(Abstract()), env, e, reference)
    {
      var found := gate.openOperation(e, reference);
      if found.None? {
        return Broken;
      }
      var source := found.value.record.binding.source;
      if source.None? {
        return Finished(gate, found.value, reference, None);
      }
      if source.value.ref.kind == OperationKind {
        return Broken;
      }
      var dataset := LoadDatasetRecord(env, source.value.ref);
      if dataset.Err? {
        return Raised(dataset.error);
      }
      o := Finished(gate, found.value, reference, Some(dataset.value));
    }

    method OpenOperationAt(env: Env, reference: Reference) returns (o: Opening)
      modifies this
      ensures OpenStep(Abstract(), o) == OperationAt(gate, old(Abstract()), env, reference)
    {
      if reference !in disk {
        return Broken;
      }
      o := OpenOperationEntry(env, disk[reference], reference);
    }

    method LoadOperationRecord(env: Env, reference: Reference) returns (r: Result<StoredOperation, Code>)
      modifies this
      ensures Step(Abstract(), r) == LoadOperation(gate, old(Abstract()), env, reference)
    {
      var refused := Resolve(Abstract(), env, reference, OperationKind);
      if refused.Some? {
        return Err(refused.value);
      }
      var o := OpenOperationAt(env, reference);
      if o.Loaded? {
        return Ok(o.stored);
      }
      QuarantineEntry(env, reference);
      r := Err(CorruptRecord);
    }

    method AdoptOperationEntry(env: Env, reference: Reference, c: Option<Content>, size: nat)
        returns (r: Result<Reference, Code>)
      modifies this
      ensures Step(Abstract(), r) == AdoptOperation(gate, old(Abstract()), env, reference, c, size)
    {
      var o := OpenOperationAt(env, reference);
      if !o.Loaded? {
        QuarantineEntry(env, reference);
        return Err(CorruptRecord);
      }
      if c.Some? && !SameContent(o.stored, c.value) {
        return Err(PublicationFailed);
      }
      r := RegisterReference(reference, size);
    }

    method StageOperationEntry(env: Env, reference: Reference, c: Content) returns (r: Result<Reference, Code>)
      modifies this
      ensures Step(Abstract(), r) == StageOperation(gate, old(Abstract()), env, reference, c)
    {
      var size := gate.operationSize(c);
      if usedBytes + size > gate.session {
        return Err(CacheFull);
      }
      var stage := gate.operationFiles(c);
      if !env.writes || stage.None? {
        return Err(PublicationFailed);
      }
      var o := OpenOperationEntry(env, stage.value, reference);
      match o {
        case Broken => return Err(PublicationFailed);
        case Raised(code) => return Err(code);
        case Loaded(_) =>
      }
      if env.early.Some? {
        disk := disk[reference := env.early.value];
        r := AdoptOperationEntry(env, reference, Some(c), gate.entrySize(env.early.value));
        return;
      }
      if env.late.Some? {
        disk := disk[reference := env.late.value];
        r := AdoptOperationEntry(env, reference, None, size);
        return;
      }
      if !env.renames {
        return Err(PublicationFailed);
      }
      disk := disk[reference := stage.value];
      r := RegisterReference(reference, size);
    }

    method PublishOperationRecord(env: Env, c: Content) returns (r: Result<Reference, Code>)
      modifies this
      ensures Step(Abstract(), r) == PublishOperation(gate, old(Abstract()), env, c)
    {
      if closed {
        return Err(ReferenceNotFound);
      }
      var accepted := gate.acceptOperation(c);
      if accepted.Err? {
        return Err(accepted.error);
      }
      var reference := accepted.value;
      if reference in corruptReferences {
        return Err(CorruptRecord);
      }
      if reference in disk {
        r := AdoptOperationEntry(env, reference, Some(c), gate.entrySize(disk[reference]));
        return;
      }
      r := StageOperationEntry(env, reference, c);
    }

    method CloseSession(env: Env) returns (r: Result<(), Code>)
      modifies this
      ensures Step(Abstract(), r) == Close(old(Abstract()), env)
    {
      if closed {
        return Ok(());
      }
      closed := true;
      references := {};
      if !env.marked {
        return Ok(());
      }
      if !env.removes {
        return Err(PublicationFailed);
      }
      disk := map[];
      r := Ok(());
    }
  }
}
