/** Safety of the session store over every run, with arbitrary changes to the stored entries between
    the steps. */
module SessionCasRuns {
  import opened Foundations
  import opened DataRecords
  import opened OperationRecords
  import opened CasEntries
  import opened SessionCas
  import Cursor

  /** What verification means: which dataset and which operation content a reference stands for, the
      reference of a record, and the dataset reference behind a record. */
  datatype Meaning = Meaning(
    isDataset: (Reference, StoredDataset) -> bool,
    isOperation: (Reference, Bytes, map<Text, Bytes>) -> bool,
    reference: OperationRecord -> Option<Reference>)

  function SourceOf(r: OperationRecord): Option<Reference> {
    match r.binding.source case None => None case Some(s) => Some(s.ref)
  }

  /** What is accepted for publication is what its reference stands for. */
  ghost predicate AcceptsSoundly(gate: Gate, mean: Meaning) {
    && (forall record, payload :: gate.acceptDataset(record, payload).Ok? ==>
          var r := gate.acceptDataset(record, payload).value;
          r.kind == DatasetKind && mean.isDataset(r, StoredDataset(r, record, payload)))
    && (forall c :: gate.acceptOperation(c).Ok? ==>
          gate.acceptOperation(c).value.kind == OperationKind
          && mean.reference(c.record) == Some(gate.acceptOperation(c).value))
  }

  /** So is what an entry is found to hold. */
  ghost predicate OpensSoundly(gate: Gate, mean: Meaning) {
    && (forall e: Entry, r: Reference :: r.kind == DatasetKind && gate.loadDataset(e, r).Some? ==>
          mean.isDataset(r, gate.loadDataset(e, r).value))
    && (forall e, r :: gate.openOperation(e, r).Some? ==>
          mean.reference(gate.openOperation(e, r).value.record) == Some(r))
  }

  /** What is reconciled is returned as it was opened, and is what its reference stands for. */
  ghost predicate FinishesSoundly(gate: Gate, mean: Meaning) {
    && (forall o, r, d :: gate.finishOperation(o, r, d).Ok? ==>
          var stored := gate.finishOperation(o, r, d).value;
          stored.record == o.record && stored.manifestBytes == o.manifestBytes && stored.members == o.members)
    && (forall e, r, d :: gate.openOperation(e, r).Some?
                          && gate.finishOperation(gate.openOperation(e, r).value, r, d).Ok? ==>
          mean.isOperation(r, gate.openOperation(e, r).value.manifestBytes, gate.openOperation(e, r).value.members))
  }

  /** What was written is read back. */
  ghost predicate WritesSoundly(gate: Gate) {
    forall c, e, r :: gate.acceptOperation(c) == Ok(r) && gate.operationFiles(c) == Some(e)
                      && gate.openOperation(e, r).Some? ==>
      var o := gate.openOperation(e, r).value;
      o.manifestBytes == c.manifestBytes && o.members == c.members
  }

  ghost predicate PinsSource(mean: Meaning) {
    forall a, b :: mean.reference(a).Some? && mean.reference(a) == mean.reference(b) ==> SourceOf(a) == SourceOf(b)
  }

  /** The gate lets through only what the reference stands for. */
  ghost predicate Sound(gate: Gate, mean: Meaning) {
    && AcceptsSoundly(gate, mean) && OpensSoundly(gate, mean) && FinishesSoundly(gate, mean)
    && WritesSoundly(gate) && PinsSource(mean)
  }

  // ----- what each step does to the books -----

  /** Nothing was registered; references may have been marked corrupt. */
  ghost predicate SameBooks(s: State, t: State) {
    t.closed == s.closed && t.references == s.references && t.used == s.used && s.corrupt <= t.corrupt
  }

  /** The reference is registered: a new one is charged `size`, within the quota. */
  ghost predicate Registered(gate: Gate, s: State, t: State, reference: Reference, size: nat) {
    && !s.closed && !t.closed && s.corrupt <= t.corrupt && reference !in s.corrupt
    && t.references == s.references + {reference}
    && (if reference in s.references then t.used == s.used else t.used == s.used + size && t.used <= gate.session)
  }

  /** What a new registration costs: the size of the entry found at the destination, or of what was
      staged. */
  function DatasetCharge(gate: Gate, s: State, record: DatasetRecord, payload: Table, reference: Reference): nat {
    if reference in s.disk then gate.entrySize(s.disk[reference]) else gate.datasetSize(record, payload)
  }

  function OperationCharge(gate: Gate, s: State, env: Env, c: Content, reference: Reference): nat {
    if reference in s.disk then gate.entrySize(s.disk[reference])
    else if env.early.Some? then gate.entrySize(env.early.value)
    else gate.operationSize(c)
  }

  ghost predicate IsContent(mean: Meaning, reference: Reference, c: Content) {
    && reference.kind == OperationKind
    && mean.reference(c.record) == Some(reference)
    && mean.isOperation(reference, c.manifestBytes, c.members)
  }

  /** The dataset behind the operation is registered. */
  ghost predicate SourceIsRegistered(record: OperationRecord, references: set<Reference>) {
    SourceOf(record).Some? ==> SourceOf(record).value.kind == DatasetKind && SourceOf(record).value in references
  }

  lemma {:induction false} LoadDatasetBooks(gate: Gate, mean: Meaning, s: State, env: Env, reference: Reference)
    requires Sound(gate, mean)
    ensures var step := LoadDataset(gate, s, env, reference);
      && SameBooks(s, step.s)
      && (step.r.Ok? ==> step.s == s && !s.closed && reference in s.references && reference !in s.corrupt
                         && reference.kind == DatasetKind && mean.isDataset(reference, step.r.value))
  {
  }

  lemma {:induction false} AdoptDatasetBooks(gate: Gate, s: State, env: Env, reference: Reference, size: nat)
    requires !s.closed && reference !in s.corrupt
    ensures var step := AdoptDataset(gate, s, env, reference, size);
      match step.r
      case Err(_) => SameBooks(s, step.s)
      case Ok(r) => r == reference && Registered(gate, s, step.s, reference, size)
  {
  }

  lemma {:induction false} PublishDatasetBooks(gate: Gate, mean: Meaning, s: State, env: Env, record: DatasetRecord,
                                               payload: Table)
    requires Sound(gate, mean)
    ensures var step := PublishDataset(gate, s, env, record, payload);
      match step.r
      case Err(_) => SameBooks(s, step.s)
      case Ok(reference) =>
        && reference.kind == DatasetKind
        && Registered(gate, s, step.s, reference, DatasetCharge(gate, s, record, payload, reference))
        && mean.isDataset(reference, StoredDataset(reference, record, payload))
  {
    var accepted := gate.acceptDataset(record, payload);
    if !s.closed && accepted.Ok? && accepted.value !in s.corrupt {
      var reference := accepted.value;
      if reference in s.disk {
        AdoptDatasetBooks(gate, s, env, reference, gate.entrySize(s.disk[reference]));
      } else if env.late.Some? {
        AdoptDatasetBooks(gate, s.(disk := s.disk[reference := env.late.value]), env, reference,
                          gate.datasetSize(record, payload));
      }
    }
  }

  lemma {:induction false} LoadOperationEntryBooks(gate: Gate, mean: Meaning, s: State, env: Env, e: Entry,
                                                   reference: Reference)
    requires Sound(gate, mean)
    ensures var step := LoadOperationEntry(gate, s, env, e, reference);
      && SameBooks(s, step.s)
      && (step.o.Loaded? ==>
            && step.s == s
            && gate.openOperation(e, reference).Some?
            && var o, stored := gate.openOperation(e, reference).value, step.o.stored;
            && stored.record == o.record && stored.manifestBytes == o.manifestBytes && stored.members == o.members
            && mean.reference(o.record) == Some(reference)
            && mean.isOperation(reference, o.manifestBytes, o.members)
            && SourceIsRegistered(o.record, s.references))
  {
    var found := gate.openOperation(e, reference);
    if found.Some? && SourceOf(found.value.record).Some? {
      LoadDatasetBooks(gate, mean, s, env, SourceOf(found.value.record).value);
    }
  }

  /** Adopting registers only what was verified; given a content, only that very content. */
  lemma {:induction false} AdoptOperationBooks(gate: Gate, mean: Meaning, s: State, env: Env, reference: Reference,
                                               c: Option<Content>, size: nat)
    requires Sound(gate, mean) && !s.closed && reference !in s.corrupt && reference.kind == OperationKind
    ensures var step := AdoptOperation(gate, s, env, reference, c, size);
      match step.r
      case Err(_) => SameBooks(s, step.s)
      case Ok(r) =>
        && r == reference && Registered(gate, s, step.s, reference, size)
        && (c.Some? ==> IsContent(mean, reference, c.value) && SourceIsRegistered(c.value.record, s.references))
  {
    if reference in s.disk {
      LoadOperationEntryBooks(gate, mean, s, env, s.disk[reference], reference);
    }
  }

  lemma {:induction false} StageOperationBooks(gate: Gate, mean: Meaning, s: State, env: Env, reference: Reference,
                                               c: Content)
    requires Sound(gate, mean) && !s.closed && reference !in s.corrupt
    requires gate.acceptOperation(c) == Ok(reference) && reference !in s.disk
    ensures var step := StageOperation(gate, s, env, reference, c);
      match step.r
      case Err(_) => SameBooks(s, step.s)
      case Ok(r) =>
        && r == reference && Registered(gate, s, step.s, reference, OperationCharge(gate, s, env, c, reference))
        && IsContent(mean, reference, c) && SourceIsRegistered(c.record, s.references)
  {
    var size, written := gate.operationSize(c), gate.operationFiles(c);
    if Fits(gate, s, size) && env.writes && written.Some? {
      LoadOperationEntryBooks(gate, mean, s, env, written.value, reference);
      if LoadOperationEntry(gate, s, env, written.value, reference).o.Loaded? {
        if env.early.Some? {
          AdoptOperationBooks(gate, mean, s.(disk := s.disk[reference := env.early.value]), env, reference, Some(c),
                              gate.entrySize(env.early.value));
        } else if env.late.Some? {
          AdoptOperationBooks(gate, mean, s.(disk := s.disk[reference := env.late.value]), env, reference, None, size);
        }
      }
    }
  }

  lemma {:induction false} PublishOperationBooks(gate: Gate, mean: Meaning, s: State, env: Env, c: Content)
    requires Sound(gate, mean)
    ensures var step := PublishOperation(gate, s, env, c);
      match step.r
      case Err(_) => SameBooks(s, step.s)
      case Ok(reference) =>
        && Registered(gate, s, step.s, reference, OperationCharge(gate, s, env, c, reference))
        && IsContent(mean, reference, c) && SourceIsRegistered(c.record, s.references)
  {
    var accepted := gate.acceptOperation(c);
    if !s.closed && accepted.Ok? && accepted.value !in s.corrupt {
      var reference := accepted.value;
      if reference in s.disk {
        AdoptOperationBooks(gate, mean, s, env, reference, Some(c), gate.entrySize(s.disk[reference]));
      } else {
        StageOperationBooks(gate, mean, s, env, reference, c);
      }
    }
  }

  lemma {:induction false} LoadOperationBooks(gate: Gate, mean: Meaning, s: State, env: Env, reference: Reference)
    requires Sound(gate, mean)
    ensures var step := LoadOperation(gate, s, env, reference);
      && SameBooks(s, step.s)
      && (step.r.Ok? ==>
            && step.s == s && !s.closed && reference in s.references && reference !in s.corrupt
            && reference.kind == OperationKind
            && mean.reference(step.r.value.record) == Some(reference)
            && mean.isOperation(reference, step.r.value.manifestBytes, step.r.value.members)
            && SourceIsRegistered(step.r.value.record, s.references))
  {
    if reference in s.disk {
      LoadOperationEntryBooks(gate, mean, s, env, s.disk[reference], reference);
    }
  }

  // ----- runs -----

  datatype Op =
    | PublishDatasetOp(record: DatasetRecord, payload: Table)
    | LoadDatasetOp(reference: Reference)
    | PublishOperationOp(content: Content)
    | LoadOperationOp(reference: Reference)
    | CloseOp
    | Tamper(disk: map<Reference, Entry>)

  /** A run's state with what was published under each reference and what each registration cost. */
  datatype History = History(s: State, datasets: map<Reference, StoredDataset>, operations: map<Reference, Content>,
                             charges: map<Reference, nat>)

  function NewSession(disk: map<Reference, Entry>): History {
    History(State(false, {}, {}, 0, disk), map[], map[], map[])
  }

  /** A reference is charged once, when it is first registered. */
  function Charge(h: History, reference: Reference, size: nat): map<Reference, nat> {
    if reference in h.s.references then h.charges else h.charges[reference := size]
  }

  function After(gate: Gate, h: History, env: Env, op: Op): History {
    match op
    case PublishDatasetOp(record, payload) =>
      var step := PublishDataset(gate, h.s, env, record, payload);
      (match step.r
       case Err(_) => h.(s := step.s)
       case Ok(r) =>
         History(step.s, h.datasets[r := StoredDataset(r, record, payload)], h.operations,
                 Charge(h, r, DatasetCharge(gate, h.s, record, payload, r))))
    case LoadDatasetOp(r) => h.(s := LoadDataset(gate, h.s, env, r).s)
    case PublishOperationOp(c) =>
      var step := PublishOperation(gate, h.s, env, c);
      (match step.r
       case Err(_) => h.(s := step.s)
       case Ok(r) =>
         History(step.s, h.datasets, h.operations[r := c], Charge(h, r, OperationCharge(gate, h.s, env, c, r))))
    case LoadOperationOp(r) => h.(s := LoadOperation(gate, h.s, env, r).s)
    case CloseOp => h.(s := Close(h.s, env).s)
    case Tamper(disk) => h.(s := h.s.(disk := disk))
  }

  function Run(gate: Gate, disk: map<Reference, Entry>, steps: seq<(Env, Op)>): History {
    if steps == [] then NewSession(disk)
    else
      var (env, op) := steps[|steps| - 1];
      After(gate, Run(gate, disk, steps[..|steps| - 1]), env, op)
  }

  // ----- the invariant -----

  /** Every registered reference has a content that was published under it. */
  ghost predicate ContentsInv(mean: Meaning, h: History) {
    && (forall r :: r in h.datasets ==> r.kind == DatasetKind && mean.isDataset(r, h.datasets[r]))
    && (forall r :: r in h.operations ==> IsContent(mean, r, h.operations[r]))
    && (forall r :: r in h.s.references ==> if r.kind == DatasetKind then r in h.datasets else r in h.operations)
  }

  /** In an open session the used bytes are the sizes charged for the registered references. */
  ghost predicate QuotaInv(gate: Gate, h: History) {
    !h.s.closed ==> h.charges.Keys == h.s.references && h.s.used == Sum(h.charges) && h.s.used <= gate.session
  }

  /** A registered operation's dataset is registered. */
  ghost predicate ClosureInv(h: History) {
    forall r :: r in h.s.references && r in h.operations ==> SourceIsRegistered(h.operations[r].record, h.s.references)
  }

  ghost predicate Inv(gate: Gate, mean: Meaning, h: History) {
    && ContentsInv(mean, h) && QuotaInv(gate, h) && ClosureInv(h)
    && (h.s.closed ==> h.s.references == {})
  }

  lemma {:induction false} SameBooksKeepInv(gate: Gate, mean: Meaning, h: History, t: State)
    requires Inv(gate, mean, h) && SameBooks(h.s, t)
    ensures Inv(gate, mean, h.(s := t))
  {
  }

  lemma {:induction false} ChargeKeepsQuota(gate: Gate, h: History, t: State, reference: Reference, size: nat)
    requires QuotaInv(gate, h) && Registered(gate, h.s, t, reference, size)
    ensures var charges := Charge(h, reference, size);
      charges.Keys == t.references && t.used == Sum(charges) && t.used <= gate.session
  {
    if reference !in h.s.references {
      SumOfUpdate(h.charges, reference, size);
    }
  }

  lemma {:induction false} PublishDatasetKeepsInv(gate: Gate, mean: Meaning, h: History, env: Env, op: Op)
    requires Sound(gate, mean) && Inv(gate, mean, h) && op.PublishDatasetOp?
    ensures Inv(gate, mean, After(gate, h, env, op))
  {
    PublishDatasetBooks(gate, mean, h.s, env, op.record, op.payload);
    var step := PublishDataset(gate, h.s, env, op.record, op.payload);
    match step.r
    case Err(_) => SameBooksKeepInv(gate, mean, h, step.s);
    case Ok(r) =>
      ChargeKeepsQuota(gate, h, step.s, r, DatasetCharge(gate, h.s, op.record, op.payload, r));
  }

  lemma {:induction false} PublishOperationKeepsInv(gate: Gate, mean: Meaning, h: History, env: Env, op: Op)
    requires Sound(gate, mean) && Inv(gate, mean, h) && op.PublishOperationOp?
    ensures Inv(gate, mean, After(gate, h, env, op))
  {
    PublishOperationBooks(gate, mean, h.s, env, op.content);
    var step := PublishOperation(gate, h.s, env, op.content);
    match step.r
    case Err(_) => SameBooksKeepInv(gate, mean, h, step.s);
    case Ok(r) => ChargeKeepsQuota(gate, h, step.s, r, OperationCharge(gate, h.s, env, op.content, r));
  }

  lemma {:induction false} AfterKeepsInv(gate: Gate, mean: Meaning, h: History, env: Env, op: Op)
    requires Sound(gate, mean) && Inv(gate, mean, h)
    ensures Inv(gate, mean, After(gate, h, env, op))
  {
    match op
    case PublishDatasetOp(_, _) => PublishDatasetKeepsInv(gate, mean, h, env, op);
    case PublishOperationOp(_) => PublishOperationKeepsInv(gate, mean, h, env, op);
    case LoadDatasetOp(r) =>
      LoadDatasetBooks(gate, mean, h.s, env, r);
      SameBooksKeepInv(gate, mean, h, LoadDataset(gate, h.s, env, r).s);
    case LoadOperationOp(r) =>
      LoadOperationBooks(gate, mean, h.s, env, r);
      SameBooksKeepInv(gate, mean, h, LoadOperation(gate, h.s, env, r).s);
    case CloseOp =>
    case Tamper(disk) => SameBooksKeepInv(gate, mean, h, h.s.(disk := disk));
  }

  /** Over every run: contents, quota and closure hold whatever happens to the stored entries. */
  lemma {:induction false} RunHasInv(gate: Gate, mean: Meaning, disk: map<Reference, Entry>, steps: seq<(Env, Op)>)
    requires Sound(gate, mean)
    ensures Inv(gate, mean, Run(gate, disk, steps))
    decreases |steps|
  {
    if steps != [] {
      var n := |steps| - 1;
      RunHasInv(gate, mean, disk, steps[..n]);
      AfterKeepsInv(gate, mean, Run(gate, disk, steps[..n]), steps[n].0, steps[n].1);
    }
  }

  // ----- charges and what is stored -----

  /** A new entry has the size its publication reserves. */
  ghost predicate Sized(gate: Gate) {
    && (forall record, payload ::
          gate.entrySize(gate.datasetFiles(record, payload)) == gate.datasetSize(record, payload))
    && (forall c :: gate.acceptOperation(c).Ok? && gate.operationFiles(c).Some? ==>
          gate.entrySize(gate.operationFiles(c).value) == gate.operationSize(c))
  }

  /** A competing entry at the rename, if one appears, has the size of what was staged. */
  predicate DatasetRaceFits(gate: Gate, s: State, env: Env, record: DatasetRecord, payload: Table,
                            reference: Reference) {
    reference in s.disk || env.late.None? || gate.entrySize(env.late.value) == gate.datasetSize(record, payload)
  }

  predicate OperationRaceFits(gate: Gate, s: State, env: Env, c: Content, reference: Reference) {
    || reference in s.disk || env.early.Some? || env.late.None?
    || gate.entrySize(env.late.value) == gate.operationSize(c)
  }

  /** A publication charges the size of the entry that is at the destination afterwards, except that
      an entry which appears at the rename is charged as what was staged, whatever its own size. */
  lemma {:induction false} DatasetChargeIff(gate: Gate, s: State, env: Env, record: DatasetRecord, payload: Table)
    requires Sized(gate) && PublishDataset(gate, s, env, record, payload).r.Ok?
    ensures var step := PublishDataset(gate, s, env, record, payload);
      var r := step.r.value;
      && r in step.s.disk
      && (DatasetCharge(gate, s, record, payload, r) == gate.entrySize(step.s.disk[r])
          <==> DatasetRaceFits(gate, s, env, record, payload, r))
  {
  }

  lemma {:induction false} OperationChargeIff(gate: Gate, mean: Meaning, s: State, env: Env, c: Content)
    requires Sound(gate, mean) && Sized(gate) && PublishOperation(gate, s, env, c).r.Ok?
    ensures var step := PublishOperation(gate, s, env, c);
      var r := step.r.value;
      && r in step.s.disk
      && (OperationCharge(gate, s, env, c, r) == gate.entrySize(step.s.disk[r])
          <==> OperationRaceFits(gate, s, env, c, r))
  {
    var reference := gate.acceptOperation(c).value;
    if reference in s.disk {
      LoadOperationEntryBooks(gate, mean, s, env, s.disk[reference], reference);
    } else {
      LoadOperationEntryBooks(gate, mean, s, env, gate.operationFiles(c).value, reference);
      if env.early.Some? {
        var found := s.(disk := s.disk[reference := env.early.value]);
        LoadOperationEntryBooks(gate, mean, found, env, env.early.value, reference);
      } else if env.late.Some? {
        var found := s.(disk := s.disk[reference := env.late.value]);
        LoadOperationEntryBooks(gate, mean, found, env, env.late.value, reference);
      }
    }
  }

  /** The one way a charge goes wrong: a verified entry of another size appears at the rename. */
  lemma {:induction false} LateEntryIsMischarged(gate: Gate, s: State, env: Env, record: DatasetRecord,
                                                 payload: Table, reference: Reference, e: Entry)
    requires !s.closed && gate.acceptDataset(record, payload) == Ok(reference)
    requires reference !in s.corrupt && reference !in s.references && reference !in s.disk
    requires Fits(gate, s, gate.datasetSize(record, payload))
    requires gate.loadDataset(gate.datasetFiles(record, payload), reference).Some?
    requires gate.loadDataset(e, reference).Some? && gate.entrySize(e) != gate.datasetSize(record, payload)
    ensures var step := PublishDataset(gate, s, env.(writes := true, late := Some(e)), record, payload);
      && step.r == Ok(reference) && step.s.disk == s.disk[reference := e]
      && step.s.used - s.used == gate.datasetSize(record, payload) != gate.entrySize(step.s.disk[reference])
  {
  }

  /** Entries stay as they are or are quarantined; nothing comes back for a corrupt reference. */
  ghost predicate KeepsEntries(s: State, t: State) {
    && s.corrupt <= t.corrupt
    && (forall r :: r in s.disk ==> if r in t.disk then t.disk[r] == s.disk[r] else r in t.corrupt)
    && (forall r :: r in t.disk && r !in s.disk ==> r !in s.corrupt)
  }

  lemma {:induction false} LoadKeepsEntries(gate: Gate, s: State, env: Env, reference: Reference)
    ensures KeepsEntries(s, LoadDataset(gate, s, env, reference).s)
    ensures KeepsEntries(s, LoadOperation(gate, s, env, reference).s)
  {
  }

  lemma {:induction false} EntryLoadKeepsEntries(gate: Gate, s: State, env: Env, e: Entry, reference: Reference)
    ensures KeepsEntries(s, LoadOperationEntry(gate, s, env, e, reference).s)
  {
  }

  lemma {:induction false} AdoptKeepsEntries(gate: Gate, s: State, env: Env, reference: Reference, c: Option<Content>,
                                             size: nat)
    ensures KeepsEntries(s, AdoptOperation(gate, s, env, reference, c, size).s)
  {
    if reference in s.disk {
      EntryLoadKeepsEntries(gate, s, env, s.disk[reference], reference);
    }
  }

  lemma {:induction false} PublishDatasetKeepsEntries(gate: Gate, s: State, env: Env, record: DatasetRecord,
                                                      payload: Table)
    ensures KeepsEntries(s, PublishDataset(gate, s, env, record, payload).s)
  {
  }

  lemma {:induction false} PublishOperationKeepsEntries(gate: Gate, s: State, env: Env, c: Content)
    ensures KeepsEntries(s, PublishOperation(gate, s, env, c).s)
  {
    var accepted := gate.acceptOperation(c);
    if !s.closed && accepted.Ok? && accepted.value !in s.corrupt {
      var reference := accepted.value;
      if reference in s.disk {
        AdoptKeepsEntries(gate, s, env, reference, Some(c), gate.entrySize(s.disk[reference]));
      } else if gate.operationFiles(c).Some? {
        EntryLoadKeepsEntries(gate, s, env, gate.operationFiles(c).value, reference);
        var staged := LoadOperationEntry(gate, s, env, gate.operationFiles(c).value, reference).s;
        if env.early.Some? {
          AdoptKeepsEntries(gate, staged.(disk := staged.disk[reference := env.early.value]), env, reference, Some(c),
                            gate.entrySize(env.early.value));
        } else if env.late.Some? {
          AdoptKeepsEntries(gate, staged.(disk := staged.disk[reference := env.late.value]), env, reference, None,
                            gate.operationSize(c));
        }
      }
    }
  }

  /** Nobody else changes the disk, but for competing entries of the size that was staged. */
  ghost predicate Undisturbed(gate: Gate, s: State, env: Env, op: Op) {
    match op
    case PublishDatasetOp(record, payload) =>
      var r := PublishDataset(gate, s, env, record, payload).r;
      r.Ok? ==> DatasetRaceFits(gate, s, env, record, payload, r.value)
    case PublishOperationOp(c) =>
      var r := PublishOperation(gate, s, env, c).r; r.Ok? ==> OperationRaceFits(gate, s, env, c, r.value)
    case Tamper(_) => false
    case _ => true
  }

  ghost predicate RunIsUndisturbed(gate: Gate, disk: map<Reference, Entry>, steps: seq<(Env, Op)>) {
    forall n :: 0 <= n < |steps| ==> Undisturbed(gate, Run(gate, disk, steps[..n]).s, steps[n].0, steps[n].1)
  }

  /** A registered entry that was not quarantined is on the disk, and its size is its charge. */
  ghost predicate StoredInv(gate: Gate, h: History) {
    !h.s.closed ==>
      forall r :: r in h.s.references ==>
        && r in h.charges
        && (r in h.s.disk || r in h.s.corrupt)
        && (r in h.s.disk ==> h.charges[r] == gate.entrySize(h.s.disk[r]))
  }

  lemma {:induction false} AfterKeepsStored(gate: Gate, mean: Meaning, h: History, env: Env, op: Op)
    requires Sound(gate, mean) && Sized(gate) && StoredInv(gate, h) && Undisturbed(gate, h.s, env, op)
    ensures StoredInv(gate, After(gate, h, env, op))
  {
    match op
    case PublishDatasetOp(record, payload) =>
      PublishDatasetBooks(gate, mean, h.s, env, record, payload);
      PublishDatasetKeepsEntries(gate, h.s, env, record, payload);
      if PublishDataset(gate, h.s, env, record, payload).r.Ok? {
        DatasetChargeIff(gate, h.s, env, record, payload);
      }
    case PublishOperationOp(c) =>
      PublishOperationBooks(gate, mean, h.s, env, c);
      PublishOperationKeepsEntries(gate, h.s, env, c);
      if PublishOperation(gate, h.s, env, c).r.Ok? {
        OperationChargeIff(gate, mean, h.s, env, c);
      }
    case LoadDatasetOp(r) =>
      LoadDatasetBooks(gate, mean, h.s, env, r);
      LoadKeepsEntries(gate, h.s, env, r);
    case LoadOperationOp(r) =>
      LoadOperationBooks(gate, mean, h.s, env, r);
      LoadKeepsEntries(gate, h.s, env, r);
    case CloseOp =>
    case Tamper(_) =>
  }

  lemma {:induction false} RunHasStored(gate: Gate, mean: Meaning, disk: map<Reference, Entry>,
                                        steps: seq<(Env, Op)>)
    requires Sound(gate, mean) && Sized(gate) && RunIsUndisturbed(gate, disk, steps)
    ensures StoredInv(gate, Run(gate, disk, steps))
    decreases |steps|
  {
    if steps != [] {
      var n := |steps| - 1;
      assert forall k :: 0 <= k < n ==> steps[..n][..k] == steps[..k];
      RunHasStored(gate, mean, disk, steps[..n]);
      AfterKeepsStored(gate, mean, Run(gate, disk, steps[..n]), steps[n].0, steps[n].1);
    }
  }

  /** In an undisturbed run without corruption the used bytes are the bytes of the stored entries. */
  lemma {:induction false} UsedIsStored(gate: Gate, mean: Meaning, disk: map<Reference, Entry>, steps: seq<(Env, Op)>)
    requires Sound(gate, mean) && Sized(gate) && RunIsUndisturbed(gate, disk, steps)
    ensures var s := Run(gate, disk, steps).s;
      !s.closed && s.references !! s.corrupt ==>
        && s.references <= s.disk.Keys
        && s.used == Sum(map r | r in s.references && r in s.disk :: gate.entrySize(s.disk[r]))
  {
    RunHasStored(gate, mean, disk, steps);
    RunHasInv(gate, mean, disk, steps);
    var h := Run(gate, disk, steps);
    if !h.s.closed && h.s.references !! h.s.corrupt {
      assert h.charges == map r | r in h.s.references && r in h.s.disk :: gate.entrySize(h.s.disk[r]);
    }
  }

  // ----- corruption is final -----

  lemma {:induction false} CorruptStays(gate: Gate, mean: Meaning, h: History, env: Env, op: Op)
    requires Sound(gate, mean)
    ensures h.s.corrupt <= After(gate, h, env, op).s.corrupt
  {
    match op
    case PublishDatasetOp(record, payload) => PublishDatasetBooks(gate, mean, h.s, env, record, payload);
    case PublishOperationOp(c) => PublishOperationBooks(gate, mean, h.s, env, c);
    case LoadDatasetOp(r) => LoadDatasetBooks(gate, mean, h.s, env, r);
    case LoadOperationOp(r) => LoadOperationBooks(gate, mean, h.s, env, r);
    case CloseOp =>
    case Tamper(_) =>
  }

  lemma {:induction false} CorruptStaysForever(gate: Gate, mean: Meaning, disk: map<Reference, Entry>,
                                               steps: seq<(Env, Op)>, n: nat)
    requires Sound(gate, mean) && n <= |steps|
    ensures Run(gate, disk, steps[..n]).s.corrupt <= Run(gate, disk, steps).s.corrupt
    decreases |steps|
  {
    var last := |steps| - 1;
    if n == |steps| {
      assert steps[..n] == steps;
    } else {
      assert steps[..last][..n] == steps[..n];
      CorruptStaysForever(gate, mean, disk, steps[..last], n);
      CorruptStays(gate, mean, Run(gate, disk, steps[..last]), steps[last].0, steps[last].1);
    }
  }

  /** Nothing succeeds for a corrupt reference: no load, no publication, no cursor. */
  lemma {:induction false} CorruptIsRefused(gate: Gate, mean: Meaning, s: State, env: Env, reference: Reference)
    requires Sound(gate, mean) && reference in s.corrupt
    ensures LoadDataset(gate, s, env, reference).r.Err? && LoadOperation(gate, s, env, reference).r.Err?
    ensures forall record, payload :: PublishDataset(gate, s, env, record, payload).r != Ok(reference)
    ensures forall c :: PublishOperation(gate, s, env, c).r != Ok(reference)
    ensures forall session, view, selector, next :: EncodeCursor(session, s, env, reference, view, selector, next).Err?
    ensures forall session, token, view, selector :: DecodeCursor(session, s, token, reference, view, selector).Err?
  {
    forall record, payload ensures PublishDataset(gate, s, env, record, payload).r != Ok(reference) {
      PublishDatasetBooks(gate, mean, s, env, record, payload);
    }
    forall c ensures PublishOperation(gate, s, env, c).r != Ok(reference) {
      PublishOperationBooks(gate, mean, s, env, c);
    }
  }

  // ----- datasets behind operations -----

  /** An operation loads only if its dataset loads too. */
  lemma {:induction false} LoadedOperationHasDataset(gate: Gate, mean: Meaning, s: State, env: Env,
                                                     reference: Reference)
    requires Sound(gate, mean) && LoadOperation(gate, s, env, reference).r.Ok?
    ensures var source := SourceOf(LoadOperation(gate, s, env, reference).r.value.record);
      source.Some? ==> source.value.kind == DatasetKind && LoadDataset(gate, s, env, source.value).r.Ok?
  {
    LoadOperationEntryBooks(gate, mean, s, env, s.disk[reference], reference);
  }

  /** When the dataset behind a registered operation cannot be loaded, loading the operation fails
      and marks it corrupt. */
  lemma {:induction false} BadDatasetCorruptsOperation(gate: Gate, mean: Meaning, h: History, env: Env,
                                                       reference: Reference)
    requires Sound(gate, mean) && Inv(gate, mean, h)
    requires reference in h.s.references && reference.kind == OperationKind && reference !in h.s.corrupt
    requires reference in h.operations && SourceOf(h.operations[reference].record).Some?
    requires LoadDataset(gate, h.s, env, SourceOf(h.operations[reference].record).value).r.Err?
    ensures var step := LoadOperation(gate, h.s, env, reference);
      step.r == Err(CorruptRecord) && reference in step.s.corrupt
  {
    if LoadOperation(gate, h.s, env, reference).r.Ok? {
      LoadOperationBooks(gate, mean, h.s, env, reference);
      LoadedOperationHasDataset(gate, mean, h.s, env, reference);
    }
  }

  // ----- nothing written is left unregistered -----

  /** Without a competing entry, a publication that puts a new entry in place registers it: once the
      space was reserved, registering cannot run out of it. */
  lemma {:induction false} PlacedIsRegistered(gate: Gate, mean: Meaning, s: State, env: Env, reference: Reference)
    requires Sound(gate, mean) && reference !in s.disk && env.early.None? && env.late.None?
    ensures forall record, payload :: var step := PublishDataset(gate, s, env, record, payload);
      reference in step.s.disk ==> step.r == Ok(reference) && reference in step.s.references
    ensures forall c :: var step := PublishOperation(gate, s, env, c);
      reference in step.s.disk ==> step.r == Ok(reference) && reference in step.s.references
  {
    forall record, payload ensures var step := PublishDataset(gate, s, env, record, payload);
      reference in step.s.disk ==> step.r == Ok(reference) && reference in step.s.references
    {
      PublishDatasetBooks(gate, mean, s, env, record, payload);
    }
    forall c ensures var step := PublishOperation(gate, s, env, c);
      reference in step.s.disk ==> step.r == Ok(reference) && reference in step.s.references
    {
      PlacedOperationIsRegistered(gate, mean, s, env, reference, c);
    }
  }

  lemma {:induction false} PlacedOperationIsRegistered(gate: Gate, mean: Meaning, s: State, env: Env,
                                                       reference: Reference, c: Content)
    requires Sound(gate, mean) && reference !in s.disk && env.early.None? && env.late.None?
    ensures var step := PublishOperation(gate, s, env, c);
      reference in step.s.disk ==> step.r == Ok(reference) && reference in step.s.references
  {
    PublishOperationBooks(gate, mean, s, env, c);
    var accepted := gate.acceptOperation(c);
    if !s.closed && accepted.Ok? && accepted.value !in s.corrupt {
      if accepted.value in s.disk {
        LoadOperationEntryBooks(gate, mean, s, env, s.disk[accepted.value], accepted.value);
      } else if gate.operationFiles(c).Some? {
        LoadOperationEntryBooks(gate, mean, s, env, gate.operationFiles(c).value, accepted.value);
      }
    }
  }

  // ----- what a load returns -----

  /** A loaded dataset and the published one are both what the reference stands for. */
  lemma {:induction false} LoadedAndPublishedDataset(gate: Gate, mean: Meaning, h: History, env: Env,
                                                     reference: Reference)
    requires Sound(gate, mean) && Inv(gate, mean, h) && LoadDataset(gate, h.s, env, reference).r.Ok?
    ensures reference in h.datasets && mean.isDataset(reference, h.datasets[reference])
    ensures mean.isDataset(reference, LoadDataset(gate, h.s, env, reference).r.value)
  {
    LoadDatasetBooks(gate, mean, h.s, env, reference);
  }

  lemma {:induction false} LoadedAndPublishedOperation(gate: Gate, mean: Meaning, h: History, env: Env,
                                                       reference: Reference)
    requires Sound(gate, mean) && Inv(gate, mean, h) && LoadOperation(gate, h.s, env, reference).r.Ok?
    ensures reference in h.operations
    ensures var c := h.operations[reference];
      mean.isOperation(reference, c.manifestBytes, c.members) && mean.reference(c.record) == Some(reference)
    ensures var stored := LoadOperation(gate, h.s, env, reference).r.value;
      mean.isOperation(reference, stored.manifestBytes, stored.members)
      && mean.reference(stored.record) == Some(reference)
  {
    LoadOperationBooks(gate, mean, h.s, env, reference);
    assert IsContent(mean, reference, h.operations[reference]);
  }

  /** What a load has seen whose second reading of the bundle was another one. */
  lemma {:induction false} RereadLoad(gate: Gate, s: State, env: Env, reference: Reference, second: Entry -> Bundle)
      returns (dataset: Option<StoredDataset>)
    requires LoadOperation(Rereading(gate, second), s, env, reference).r.Ok?
    ensures reference in s.references && reference.kind == OperationKind && reference in s.disk
    ensures gate.openOperation(s.disk[reference], reference).Some?
    ensures var o := gate.openOperation(s.disk[reference], reference).value;
      gate.finishOperation(o.(files := second(s.disk[reference])), reference, dataset)
      == Ok(LoadOperation(Rereading(gate, second), s, env, reference).r.value)
  {
    dataset := RereadEntry(gate, s, env, s.disk[reference], reference, second);
  }

  lemma {:induction false} RereadEntry(gate: Gate, s: State, env: Env, e: Entry, reference: Reference,
                                       second: Entry -> Bundle) returns (dataset: Option<StoredDataset>)
    requires LoadOperationEntry(Rereading(gate, second), s, env, e, reference).o.Loaded?
    ensures gate.openOperation(e, reference).Some?
    ensures var o := gate.openOperation(e, reference).value;
      gate.finishOperation(o.(files := second(e)), reference, dataset)
      == Ok(LoadOperationEntry(Rereading(gate, second), s, env, e, reference).o.stored)
  {
    var again := Rereading(gate, second);
    var o := again.openOperation(e, reference).value;
    dataset := match o.record.binding.source
      case None => None
      case Some(source) => Some(LoadDataset(again, s, env, source.ref).r.value);
  }

  /** The plain load is the one whose two readings saw the same bundle. */
  lemma {:induction false} SameReadings(gate: Gate, s: State, env: Env, reference: Reference, second: Entry -> Bundle)
    requires reference in s.disk
    requires var o := gate.openOperation(s.disk[reference], reference);
      o.Some? ==> o.value.files == second(s.disk[reference])
    ensures LoadOperation(Rereading(gate, second), s, env, reference) == LoadOperation(gate, s, env, reference)
  {
    var again := Rereading(gate, second);
    assert again.openOperation(s.disk[reference], reference) == gate.openOperation(s.disk[reference], reference);
  }

  /** Whether a bundle reconciles depends on the record and the reading that is reconciled. */
  ghost predicate ReconcilesFiles(gate: Gate) {
    forall o: Opened, p: Opened, r, d ::
      o.record == p.record && o.files == p.files && gate.finishOperation(o, r, d).Ok? ==>
      gate.finishOperation(p, r, d).Ok?
  }

  /** An entry with another bundle verifies if its second reading sees the bundle of a sound entry. */
  lemma {:induction false} StaleEntryLoads(gate: Gate, mean: Meaning, s: State, env: Env, sound: Entry, stale: Entry,
                                           reference: Reference, second: Entry -> Bundle)
    requires Sound(gate, mean) && ReconcilesFiles(gate)
    requires LoadOperationEntry(gate, s, env, sound, reference).o.Loaded?
    requires gate.openOperation(stale, reference).Some?
    requires var o, p := gate.openOperation(sound, reference).value, gate.openOperation(stale, reference).value;
      p.record == o.record && second(stale) == o.files
    ensures var step := LoadOperationEntry(Rereading(gate, second), s, env, stale, reference);
      var p := gate.openOperation(stale, reference).value;
      && step.s == s && step.o.Loaded?
      && step.o.stored.manifestBytes == p.manifestBytes && step.o.stored.members == p.members
      && step.o.stored.record == p.record
  {
    LoadOperationEntryBooks(gate, mean, s, env, sound, reference);
    var again := Rereading(gate, second);
    var o, p := gate.openOperation(sound, reference).value, again.openOperation(stale, reference).value;
    var source := o.record.binding.source;
    assert forall r :: LoadDataset(again, s, env, r) == LoadDataset(gate, s, env, r);
    var dataset := if source.Some? then Some(LoadDataset(gate, s, env, source.value.ref).r.value) else None;
    assert gate.finishOperation(o, reference, dataset).Ok?;
    assert gate.finishOperation(p, reference, dataset).Ok?;
  }

  /** The same at the destination of a load. */
  lemma {:induction false} ExchangedEntryLoads(gate: Gate, mean: Meaning, s: State, env: Env, reference: Reference,
                                               stale: Entry, second: Entry -> Bundle)
    requires Sound(gate, mean) && ReconcilesFiles(gate)
    requires LoadOperation(gate, s, env, reference).r.Ok?
    requires gate.openOperation(stale, reference).Some?
    requires reference in s.disk && gate.openOperation(s.disk[reference], reference).Some? ==>
      var o, p := gate.openOperation(s.disk[reference], reference).value, gate.openOperation(stale, reference).value;
      p.record == o.record && second(stale) == o.files
    ensures var exchanged := s.(disk := s.disk[reference := stale]);
      var loaded := LoadOperation(Rereading(gate, second), exchanged, env, reference).r;
      var p := gate.openOperation(stale, reference).value;
      loaded.Ok? && loaded.value.manifestBytes == p.manifestBytes && loaded.value.members == p.members
  {
    LoadOperationBooks(gate, mean, s, env, reference);
    var exchanged := s.(disk := s.disk[reference := stale]);
    EntryStillLoads(gate, s, exchanged, env, env, s.disk[reference], reference);
    StaleEntryLoads(gate, mean, exchanged, env, s.disk[reference], stale, reference, second);
  }

  /** What a publication has seen: the entry that carries its content, and what was reconciled. */
  lemma {:induction false} RereadPublication(gate: Gate, s: State, env: Env, c: Content, second: Entry -> Bundle)
      returns (dataset: Option<StoredDataset>, e: Entry, stored: StoredOperation)
    requires PublishOperation(Rereading(gate, second), s, env, c).r.Ok?
    ensures gate.acceptOperation(c) == Ok(PublishOperation(Rereading(gate, second), s, env, c).r.value)
    ensures var r := gate.acceptOperation(c).value;
      && Some(e) == (if r in s.disk then Some(s.disk[r]) else gate.operationFiles(c))
      && gate.openOperation(e, r).Some?
      && var o := gate.openOperation(e, r).value;
         && gate.finishOperation(o.(files := second(e)), r, dataset) == Ok(stored)
         && (r in s.disk ==> stored.manifestBytes == c.manifestBytes && stored.members == c.members)
  {
    var again := Rereading(gate, second);
    var r := gate.acceptOperation(c).value;
    e := if r in s.disk then s.disk[r] else gate.operationFiles(c).value;
    stored := LoadOperationEntry(again, s, env, e, r).o.stored;
    dataset := RereadEntry(gate, s, env, e, r, second);
  }

  /** A publication reads its stage twice as well: a content under the reference of a sound entry is
      registered if the second reading sees the bundle of that entry. */
  lemma {:induction false} StalePublicationSucceeds(gate: Gate, mean: Meaning, s: State, env: Env, c: Content,
                                                    reference: Reference, sound: Entry, second: Entry -> Bundle)
    requires Sound(gate, mean) && ReconcilesFiles(gate)
    requires !s.closed && gate.acceptOperation(c) == Ok(reference)
    requires reference !in s.corrupt && reference !in s.disk && Fits(gate, s, gate.operationSize(c))
    requires env.writes && env.renames && env.early.None? && env.late.None?
    requires LoadOperationEntry(gate, s, env, sound, reference).o.Loaded?
    requires gate.operationFiles(c).Some? && gate.openOperation(gate.operationFiles(c).value, reference).Some?
    requires var o := gate.openOperation(sound, reference).value;
      var p := gate.openOperation(gate.operationFiles(c).value, reference).value;
      p.record == o.record && second(gate.operationFiles(c).value) == o.files
    ensures var step := PublishOperation(Rereading(gate, second), s, env, c);
      step.r == Ok(reference) && step.s.disk == s.disk[reference := gate.operationFiles(c).value]
  {
    StaleEntryLoads(gate, mean, s, env, sound, gate.operationFiles(c).value, reference, second);
  }

  /** What was just published as a dataset loads while its entry is untouched. */
  lemma {:induction false} PublishedDatasetLoads(gate: Gate, mean: Meaning, s: State, env: Env, later: Env,
                                                 record: DatasetRecord, payload: Table)
    requires Sound(gate, mean) && PublishDataset(gate, s, env, record, payload).r.Ok?
    ensures var step := PublishDataset(gate, s, env, record, payload);
      var loaded := LoadDataset(gate, step.s, later, step.r.value);
      && loaded.r.Ok? && loaded.s == step.s
      && mean.isDataset(step.r.value, loaded.r.value)
      && mean.isDataset(step.r.value, StoredDataset(step.r.value, record, payload))
  {
    PublishDatasetBooks(gate, mean, s, env, record, payload);
    var step := PublishDataset(gate, s, env, record, payload);
    LoadDatasetBooks(gate, mean, step.s, later, step.r.value);
  }

  /** Verifying an operation entry looks at the entry and at the dataset entries only. */
  lemma {:induction false} EntryStillLoads(gate: Gate, s: State, t: State, env: Env, later: Env, e: Entry,
                                           reference: Reference)
    requires LoadOperationEntry(gate, s, env, e, reference).o.Loaded?
    requires s.closed == t.closed && s.references <= t.references && s.corrupt == t.corrupt
    requires forall r :: r in s.disk && r.kind == DatasetKind ==> r in t.disk && t.disk[r] == s.disk[r]
    ensures LoadOperationEntry(gate, t, later, e, reference)
            == OpenStep(t, LoadOperationEntry(gate, s, env, e, reference).o)
  {
    var source := SourceOf(gate.openOperation(e, reference).value.record);
    if source.Some? {
      assert LoadDataset(gate, s, env, source.value).r.Ok?;
      assert LoadDataset(gate, t, later, source.value) == Step(t, LoadDataset(gate, s, env, source.value).r);
    }
  }

  /** After a publication the entry at the destination has been verified, by a step that changed
      nothing but the entry itself and the registration. */
  ghost predicate VerifiedBefore(gate: Gate, t: State, env: Env, reference: Reference) {
    && reference in t.disk && reference.kind == OperationKind
    && exists s: State ::
         && LoadOperationEntry(gate, s, env, t.disk[reference], reference).o.Loaded?
         && s.closed == t.closed && s.references <= t.references && s.corrupt == t.corrupt
         && forall r :: r in s.disk && r.kind == DatasetKind ==> r in t.disk && t.disk[r] == s.disk[r]
  }

  lemma {:induction false} AdoptedIsVerified(gate: Gate, mean: Meaning, s: State, env: Env, reference: Reference,
                                             c: Option<Content>, size: nat)
    requires Sound(gate, mean) && reference.kind == OperationKind
    requires AdoptOperation(gate, s, env, reference, c, size).r.Ok?
    ensures VerifiedBefore(gate, AdoptOperation(gate, s, env, reference, c, size).s, env, reference)
  {
    LoadOperationEntryBooks(gate, mean, s, env, s.disk[reference], reference);
    assert LoadOperationEntry(gate, s, env, s.disk[reference], reference).o.Loaded?;
  }

  lemma {:induction false} PublishedIsVerified(gate: Gate, mean: Meaning, s: State, env: Env, c: Content)
    requires Sound(gate, mean) && PublishOperation(gate, s, env, c).r.Ok?
    ensures var step := PublishOperation(gate, s, env, c); VerifiedBefore(gate, step.s, env, step.r.value)
  {
    var reference := gate.acceptOperation(c).value;
    var size := gate.operationSize(c);
    if reference in s.disk {
      AdoptedIsVerified(gate, mean, s, env, reference, Some(c), gate.entrySize(s.disk[reference]));
    } else {
      var written := gate.operationFiles(c).value;
      LoadOperationEntryBooks(gate, mean, s, env, written, reference);
      if env.early.Some? {
        AdoptedIsVerified(gate, mean, s.(disk := s.disk[reference := env.early.value]), env, reference, Some(c),
                          gate.entrySize(env.early.value));
      } else if env.late.Some? {
        AdoptedIsVerified(gate, mean, s.(disk := s.disk[reference := env.late.value]), env, reference, None, size);
      } else {
        assert LoadOperationEntry(gate, s, env, written, reference).o.Loaded?;
      }
    }
  }

  /** What was just published as an operation loads while the disk is untouched. */
  lemma {:induction false} PublishedOperationLoads(gate: Gate, mean: Meaning, s: State, env: Env, later: Env,
                                                   c: Content)
    requires Sound(gate, mean) && PublishOperation(gate, s, env, c).r.Ok?
    ensures var step := PublishOperation(gate, s, env, c);
      var loaded := LoadOperation(gate, step.s, later, step.r.value);
      && loaded.r.Ok? && loaded.s == step.s
      && mean.isOperation(step.r.value, loaded.r.value.manifestBytes, loaded.r.value.members)
      && mean.isOperation(step.r.value, c.manifestBytes, c.members)
  {
    PublishOperationBooks(gate, mean, s, env, c);
    PublishedIsVerified(gate, mean, s, env, c);
    var step := PublishOperation(gate, s, env, c);
    var reference := step.r.value;
    var before: State :|
      && LoadOperationEntry(gate, before, env, step.s.disk[reference], reference).o.Loaded?
      && before.closed == step.s.closed && before.references <= step.s.references && before.corrupt == step.s.corrupt
      && forall r :: r in before.disk && r.kind == DatasetKind ==> r in step.s.disk && step.s.disk[r] == before.disk[r];
    EntryStillLoads(gate, before, step.s, env, later, step.s.disk[reference], reference);
    NotCorruptAfterPublishing(gate, mean, s, env, c);
    LoadOperationBooks(gate, mean, step.s, later, reference);
  }

  lemma {:induction false} NotCorruptAfterPublishing(gate: Gate, mean: Meaning, s: State, env: Env, c: Content)
    requires Sound(gate, mean) && PublishOperation(gate, s, env, c).r.Ok?
    ensures var step := PublishOperation(gate, s, env, c); step.s.corrupt == s.corrupt
  {
    var reference := gate.acceptOperation(c).value;
    if reference in s.disk {
      LoadOperationEntryBooks(gate, mean, s, env, s.disk[reference], reference);
    } else {
      LoadOperationEntryBooks(gate, mean, s, env, gate.operationFiles(c).value, reference);
      if env.early.Some? {
        LoadOperationEntryBooks(gate, mean, s.(disk := s.disk[reference := env.early.value]), env, env.early.value,
                                reference);
      } else if env.late.Some? {
        LoadOperationEntryBooks(gate, mean, s.(disk := s.disk[reference := env.late.value]), env, env.late.value,
                                reference);
      }
    }
  }

  // ----- exactly when a publication succeeds, and what it leaves -----

  /** The content is accepted for this reference in an open session that has not found it corrupt. */
  ghost predicate Admits(s: State, accepted: Result<Reference, Code>, reference: Reference) {
    !s.closed && accepted == Ok(reference) && reference !in s.corrupt
  }

  /** The reference is charged already, or there is room for its size. */
  ghost predicate HasRoom(gate: Gate, s: State, reference: Reference, size: nat) {
    reference in s.references || s.used + size <= gate.session
  }

  ghost predicate Verifies(gate: Gate, e: Entry, reference: Reference) {
    gate.loadDataset(e, reference).Some?
  }

  /** The entry that a publication finds or makes. */
  ghost function DatasetEntryAfter(gate: Gate, s: State, env: Env, record: DatasetRecord, payload: Table,
                                   reference: Reference): Entry {
    if reference in s.disk then s.disk[reference]
    else if env.late.Some? then env.late.value
    else gate.datasetFiles(record, payload)
  }

  /** The state after a registration: the entry is in place, the reference held, and a new one charged. */
  ghost predicate IsRegisteredAt(s: State, t: State, reference: Reference, e: Entry, size: nat) {
    && t.closed == s.closed && t.corrupt == s.corrupt
    && t.disk == s.disk[reference := e] && t.references == s.references + {reference}
    && t.used == if reference in s.references then s.used else s.used + size
  }

  /** A dataset is published exactly when it is admitted and either the entry that is there verifies and
      has room, or there is room for the new one, it can be written and verifies, and it is renamed into
      place or the entry that appeared there verifies. */
  lemma {:induction false} DatasetPublishedIff(gate: Gate, s: State, env: Env, record: DatasetRecord, payload: Table,
                                               reference: Reference)
    ensures var step := PublishDataset(gate, s, env, record, payload);
      && (step.r == Ok(reference) <==>
            && Admits(s, gate.acceptDataset(record, payload), reference)
            && if reference in s.disk then
                 && Verifies(gate, s.disk[reference], reference)
                 && HasRoom(gate, s, reference, gate.entrySize(s.disk[reference]))
               else
                 && s.used + gate.datasetSize(record, payload) <= gate.session
                 && env.writes && Verifies(gate, gate.datasetFiles(record, payload), reference)
                 && if env.late.Some? then Verifies(gate, env.late.value, reference) else env.renames)
      && (step.r == Ok(reference) ==>
            IsRegisteredAt(s, step.s, reference, DatasetEntryAfter(gate, s, env, record, payload, reference),
                           DatasetCharge(gate, s, record, payload, reference)))
  {
  }

  /** A refused dataset registers nothing and says why. Only an entry that does not verify is marked and
      moved aside; otherwise nothing changes at all. */
  lemma {:induction false} DatasetRefusedBecause(gate: Gate, s: State, env: Env, record: DatasetRecord, payload: Table)
    requires PublishDataset(gate, s, env, record, payload).r.Err?
    ensures var step := PublishDataset(gate, s, env, record, payload);
      var accepted := gate.acceptDataset(record, payload);
      var code := step.r.error;
      if s.closed then code == ReferenceNotFound && step.s == s
      else if accepted.Err? then code == accepted.error && step.s == s
      else
        var reference := accepted.value;
        var found := if reference in s.disk then Some(s.disk[reference]) else env.late;
        if reference in s.corrupt then code == CorruptRecord && step.s == s
        else if code == CorruptRecord then
          && found.Some? && !Verifies(gate, found.value, reference)
          && step.s.corrupt == s.corrupt + {reference}
          && step.s.disk == (if env.moves then s.disk - {reference} else s.disk[reference := found.value])
          && step.s.references == s.references && step.s.used == s.used && !step.s.closed
        else
          && step.s == s
          && (code == CacheFull <==>
                !HasRoom(gate, s, reference, DatasetCharge(gate, s, record, payload, reference))
                || (reference !in s.disk && s.used + gate.datasetSize(record, payload) > gate.session))
          && (code == CacheFull || (code == PublicationFailed && reference !in s.disk))
  {
  }

  /** An operation entry verifies: its record opens under the reference, its source is no operation and
      loads from this session, and the bundle reconciles with both. */
  ghost predicate OperationVerifies(gate: Gate, s: State, e: Entry, reference: Reference) {
    var o := gate.openOperation(e, reference);
    && o.Some?
    && match SourceOf(o.value.record)
       case None => gate.finishOperation(o.value, reference, None).Ok?
       case Some(source) =>
         && source.kind == DatasetKind && !s.closed && source in s.references && source !in s.corrupt
         && source in s.disk && Verifies(gate, s.disk[source], source)
         && gate.finishOperation(o.value, reference, gate.loadDataset(s.disk[source], source)).Ok?
  }

  lemma {:induction false} EntryLoadsIff(gate: Gate, s: State, env: Env, e: Entry, reference: Reference)
    ensures LoadOperationEntry(gate, s, env, e, reference).o.Loaded? <==> OperationVerifies(gate, s, e, reference)
    ensures OperationVerifies(gate, s, e, reference) ==> LoadOperationEntry(gate, s, env, e, reference).s == s
  {
  }

  /** What an entry holds is exactly the given content. */
  ghost predicate Holds(gate: Gate, e: Entry, reference: Reference, c: Content) {
    var o := gate.openOperation(e, reference);
    && o.Some?
    && o.value.record == c.record && o.value.manifestBytes == c.manifestBytes && o.value.members == c.members
  }

  ghost predicate AdoptsOperation(gate: Gate, s: State, e: Entry, reference: Reference, c: Content) {
    && OperationVerifies(gate, s, e, reference) && Holds(gate, e, reference, c)
    && HasRoom(gate, s, reference, gate.entrySize(e))
  }

  ghost predicate PlacesOperation(gate: Gate, s: State, env: Env, reference: Reference, c: Content) {
    && s.used + gate.operationSize(c) <= gate.session && env.writes && gate.operationFiles(c).Some?
    && OperationVerifies(gate, s, gate.operationFiles(c).value, reference)
    && if env.early.Some? then AdoptsOperation(gate, s, env.early.value, reference, c)
       else if env.late.Some? then OperationVerifies(gate, s, env.late.value, reference)
       else env.renames
  }

  ghost function OperationEntryAfter(gate: Gate, s: State, env: Env, c: Content, reference: Reference): Option<Entry> {
    if reference in s.disk then Some(s.disk[reference])
    else if env.early.Some? then env.early
    else if env.late.Some? then env.late
    else gate.operationFiles(c)
  }

  lemma {:induction false} AdoptedIff(gate: Gate, mean: Meaning, s: State, env: Env, reference: Reference,
                                      c: Option<Content>, size: nat)
    requires Sound(gate, mean) && reference in s.disk
    ensures var step := AdoptOperation(gate, s, env, reference, c, size);
      && (step.r.Ok? <==>
            && OperationVerifies(gate, s, s.disk[reference], reference)
            && (c.Some? ==> Holds(gate, s.disk[reference], reference, c.value))
            && HasRoom(gate, s, reference, size))
      && (step.r.Ok? ==> step.r == Ok(reference) && IsRegisteredAt(s, step.s, reference, s.disk[reference], size))
  {
    EntryLoadsIff(gate, s, env, s.disk[reference], reference);
    LoadOperationEntryBooks(gate, mean, s, env, s.disk[reference], reference);
    assert s.disk[reference := s.disk[reference]] == s.disk;
  }

  /** Whether another entry verifies does not depend on what is under the operation's own reference. */
  lemma {:induction false} VerifyingIgnoresOwnEntry(gate: Gate, s: State, e: Entry, found: Entry, reference: Reference)
    requires reference.kind == OperationKind
    ensures OperationVerifies(gate, s.(disk := s.disk[reference := found]), e, reference)
            <==> OperationVerifies(gate, s, e, reference)
  {
  }

  /** An operation is published exactly when it is admitted and either the entry that is there verifies,
      holds this very content and has room, or there is room for the new one, it can be written and
      verifies, and it is renamed into place, or what appeared before the rename is adopted likewise, or
      what appeared at the rename verifies. */
  lemma {:induction false} OperationPublishedIff(gate: Gate, mean: Meaning, s: State, env: Env, c: Content,
                                                 reference: Reference)
    requires Sound(gate, mean)
    ensures var step := PublishOperation(gate, s, env, c);
      && (step.r == Ok(reference) <==>
            && Admits(s, gate.acceptOperation(c), reference)
            && if reference in s.disk then AdoptsOperation(gate, s, s.disk[reference], reference, c)
               else PlacesOperation(gate, s, env, reference, c))
      && (step.r == Ok(reference) ==>
            && OperationEntryAfter(gate, s, env, c, reference).Some?
            && IsRegisteredAt(s, step.s, reference, OperationEntryAfter(gate, s, env, c, reference).value,
                              OperationCharge(gate, s, env, c, reference)))
  {
    if Admits(s, gate.acceptOperation(c), reference) {
      if reference in s.disk {
        AdoptedIff(gate, mean, s, env, reference, Some(c), gate.entrySize(s.disk[reference]));
      } else {
        StagedIff(gate, mean, s, env, reference, c);
      }
    }
  }

  lemma {:induction false} StagedIff(gate: Gate, mean: Meaning, s: State, env: Env, reference: Reference, c: Content)
    requires Sound(gate, mean) && reference !in s.disk && reference.kind == OperationKind
    ensures var step := StageOperation(gate, s, env, reference, c);
      && (step.r.Ok? <==> PlacesOperation(gate, s, env, reference, c))
      && (step.r.Ok? ==>
            && step.r == Ok(reference) && OperationEntryAfter(gate, s, env, c, reference).Some?
            && IsRegisteredAt(s, step.s, reference, OperationEntryAfter(gate, s, env, c, reference).value,
                              OperationCharge(gate, s, env, c, reference)))
  {
    var size, written := gate.operationSize(c), gate.operationFiles(c);
    if s.used + size <= gate.session && env.writes && written.Some? {
      EntryLoadsIff(gate, s, env, written.value, reference);
      if env.early.Some? {
        var found := s.(disk := s.disk[reference := env.early.value]);
        VerifyingIgnoresOwnEntry(gate, s, env.early.value, env.early.value, reference);
        AdoptedIff(gate, mean, found, env, reference, Some(c), gate.entrySize(env.early.value));
      } else if env.late.Some? {
        var found := s.(disk := s.disk[reference := env.late.value]);
        VerifyingIgnoresOwnEntry(gate, s, env.late.value, env.late.value, reference);
        AdoptedIff(gate, mean, found, env, reference, None, size);
      }
    }
  }

  /** Why an admitted operation is refused. */
  ghost predicate RefusedAt(gate: Gate, s: State, e: Entry, reference: Reference, c: Option<Content>, code: Code) {
    if !OperationVerifies(gate, s, e, reference) then code == CorruptRecord
    else if c.Some? && !Holds(gate, e, reference, c.value) then code == PublicationFailed
    else code == CacheFull
  }

  lemma {:induction false} AdoptionRefused(gate: Gate, mean: Meaning, s: State, env: Env, reference: Reference,
                                           c: Option<Content>, size: nat)
    requires Sound(gate, mean) && reference in s.disk && AdoptOperation(gate, s, env, reference, c, size).r.Err?
    ensures var step := AdoptOperation(gate, s, env, reference, c, size);
      && RefusedAt(gate, s, s.disk[reference], reference, c, step.r.error)
      && (step.r.error == CorruptRecord ==> reference in step.s.corrupt)
  {
    EntryLoadsIff(gate, s, env, s.disk[reference], reference);
    LoadOperationEntryBooks(gate, mean, s, env, s.disk[reference], reference);
  }

  /** A refused operation says why: an entry found there that does not verify is marked corrupt, one with
      another content is refused as a failed publication, as are a write, a stage or a rename that fails,
      and only missing room is a full cache. */
  lemma {:induction false} OperationRefusedBecause(gate: Gate, mean: Meaning, s: State, env: Env, c: Content,
                                                   reference: Reference)
    requires Sound(gate, mean) && Admits(s, gate.acceptOperation(c), reference)
    requires PublishOperation(gate, s, env, c).r.Err?
    ensures var step := PublishOperation(gate, s, env, c);
      var code := step.r.error;
      && step.s.references == s.references && step.s.used == s.used && !step.s.closed
      && if reference in s.disk then RefusedAt(gate, s, s.disk[reference], reference, Some(c), code)
         else if s.used + gate.operationSize(c) > gate.session then code == CacheFull && step.s == s
         else if !env.writes || gate.operationFiles(c).None? then code == PublicationFailed && step.s == s
         else if !OperationVerifies(gate, s, gate.operationFiles(c).value, reference) then reference !in step.s.disk
         else if env.early.Some? then RefusedAt(gate, s, env.early.value, reference, Some(c), code)
         else if env.late.Some? then RefusedAt(gate, s, env.late.value, reference, None, code)
         else code == PublicationFailed && step.s == s
  {
    PublishOperationBooks(gate, mean, s, env, c);
    if reference in s.disk {
      AdoptionRefused(gate, mean, s, env, reference, Some(c), gate.entrySize(s.disk[reference]));
    } else if s.used + gate.operationSize(c) <= gate.session && env.writes && gate.operationFiles(c).Some? {
      var written := gate.operationFiles(c).value;
      EntryLoadsIff(gate, s, env, written, reference);
      EntryLoadKeepsEntries(gate, s, env, written, reference);
      if OperationVerifies(gate, s, written, reference) {
        StagingRefused(gate, mean, s, env, reference, c);
      }
    }
  }

  lemma {:induction false} StagingRefused(gate: Gate, mean: Meaning, s: State, env: Env, reference: Reference,
                                          c: Content)
    requires Sound(gate, mean) && reference !in s.disk && reference.kind == OperationKind
    requires s.used + gate.operationSize(c) <= gate.session && env.writes && gate.operationFiles(c).Some?
    requires OperationVerifies(gate, s, gate.operationFiles(c).value, reference)
    requires StageOperation(gate, s, env, reference, c).r.Err?
    ensures var step := StageOperation(gate, s, env, reference, c);
      if env.early.Some? then RefusedAt(gate, s, env.early.value, reference, Some(c), step.r.error)
      else if env.late.Some? then RefusedAt(gate, s, env.late.value, reference, None, step.r.error)
      else step.r.error == PublicationFailed && step.s == s
  {
    EntryLoadsIff(gate, s, env, gate.operationFiles(c).value, reference);
    if env.early.Some? {
      var e := env.early.value;
      VerifyingIgnoresOwnEntry(gate, s, e, e, reference);
      AdoptionRefused(gate, mean, s.(disk := s.disk[reference := e]), env, reference, Some(c), gate.entrySize(e));
    } else if env.late.Some? {
      var e := env.late.value;
      VerifyingIgnoresOwnEntry(gate, s, e, e, reference);
      AdoptionRefused(gate, mean, s.(disk := s.disk[reference := e]), env, reference, None, gate.operationSize(c));
    }
  }

  // ----- a failed load is final -----

  /** A load fails for corruption exactly when the reference is held but marked, or its entry does not
      verify, and then it is marked; a load that succeeds changes nothing. */
  lemma {:induction false} LoadOutcome(gate: Gate, s: State, env: Env, reference: Reference)
    ensures var step := LoadDataset(gate, s, env, reference);
      var readable :=
        !s.closed && reference.kind == DatasetKind && reference !in s.corrupt && reference in s.references;
      var verifies := reference in s.disk && Verifies(gate, s.disk[reference], reference);
      && (step.r.Ok? <==> readable && verifies)
      && (step.r.Ok? ==> step.s == s && step.r.value == gate.loadDataset(s.disk[reference], reference).value)
      && (readable && !verifies ==>
            && step.r == Err(CorruptRecord) && step.s.corrupt == s.corrupt + {reference}
            && (if env.moves then reference !in step.s.disk else step.s.disk == s.disk))
    ensures var step := LoadOperation(gate, s, env, reference);
      var readable :=
        !s.closed && reference.kind == OperationKind && reference !in s.corrupt && reference in s.references;
      var verifies := reference in s.disk && OperationVerifies(gate, s, s.disk[reference], reference);
      && (step.r.Ok? <==> readable && verifies)
      && (step.r.Ok? ==> step.s == s)
      && (readable && !verifies ==> step.r == Err(CorruptRecord) && reference in step.s.corrupt)
  {
    if reference in s.disk {
      EntryLoadsIff(gate, s, env, s.disk[reference], reference);
    }
  }

  /** Once a load has found an entry corrupt, no later load or publication of the reference succeeds,
      whatever is put on the disk. */
  lemma {:induction false} FailedLoadIsFinal(gate: Gate, mean: Meaning, disk: map<Reference, Entry>,
                                             steps: seq<(Env, Op)>, n: nat, env: Env, reference: Reference)
    requires Sound(gate, mean) && n < |steps|
    requires FindsCorrupt(gate, Run(gate, disk, steps[..n]).s, steps[n].0, steps[n].1, reference)
    ensures var s := Run(gate, disk, steps).s;
      && LoadDataset(gate, s, env, reference).r.Err? && LoadOperation(gate, s, env, reference).r.Err?
      && (forall record, payload :: PublishDataset(gate, s, env, record, payload).r != Ok(reference))
      && (forall c :: PublishOperation(gate, s, env, c).r != Ok(reference))
  {
    var before, after := Run(gate, disk, steps[..n]).s, Run(gate, disk, steps[..n + 1]).s;
    assert steps[..n + 1][..n] == steps[..n];
    LoadOutcome(gate, before, steps[n].0, reference);
    assert reference in after.corrupt;
    CorruptStaysForever(gate, mean, disk, steps, n + 1);
    CorruptIsRefused(gate, mean, Run(gate, disk, steps).s, env, reference);
  }

  /** The step is a load of the reference that answers RECORD_CORRUPT. */
  ghost predicate FindsCorrupt(gate: Gate, s: State, env: Env, op: Op, reference: Reference) {
    || (op == LoadDatasetOp(reference) && LoadDataset(gate, s, env, reference).r == Err(CorruptRecord))
    || (op == LoadOperationOp(reference) && LoadOperation(gate, s, env, reference).r == Err(CorruptRecord))
  }
}
