/** Several sessions of one process over the registry they share (shared/session_cas.py): a reference is
    denied as out of scope exactly when some other open session holds it. */
module SessionScopes {
  import opened Foundations
  import opened DataRecords
  import opened CasEntries
  import opened SessionCas
  import opened SessionCasRuns

  /** The sessions by their ids, and the contents of the shared registry. */
  datatype World = World(sessions: map<Text, State>, holders: Holders)

  /** A session opens over the entries in its directory, or takes a step. */
  datatype Act = Open(id: Text, disk: map<Reference, Entry>) | Do(id: Text, env: Env, op: Op)

  /** A step of one session sees the registry's references of the others and reports its own: closing
      drops the session, and everything else only adds what was newly registered. */
  function Next(gate: Gate, w: World, a: Act): World {
    match a
    case Open(id, disk) =>
      if id in w.sessions then w else w.(sessions := w.sessions[id := NewSession(disk).s])
    case Do(id, env, op) =>
      if id !in w.sessions then w
      else
        var s := w.sessions[id];
        var t := StateAfter(gate, s, env.(outside := KnownOutside(w.holders, id)), op);
        World(w.sessions[id := t],
              if op.CloseOp? && !s.closed then Without(w.holders, id)
              else WithHolder(w.holders, id, t.references - s.references))
  }

  function StateAfter(gate: Gate, s: State, env: Env, op: Op): State {
    After(gate, History(s, map[], map[], map[]), env, op).s
  }

  function Run(gate: Gate, acts: seq<Act>): World {
    if acts == [] then World(map[], map[]) else Next(gate, Run(gate, acts[..|acts| - 1]), acts[|acts| - 1])
  }

  /** The registry says of every reference exactly which sessions have it registered, and a closed
      session has none. */
  ghost predicate RegistryInv(w: World) {
    && (forall r, id :: id in HoldersOf(w.holders, r) <==> id in w.sessions && r in w.sessions[id].references)
    && (forall id :: id in w.sessions && w.sessions[id].closed ==> w.sessions[id].references == {})
  }

  /** A step other than closing forgets no reference; closing forgets them all. */
  lemma {:induction false} StepReferences(gate: Gate, mean: Meaning, s: State, env: Env, op: Op)
    requires Sound(gate, mean)
    ensures var t := StateAfter(gate, s, env, op);
      && (op.CloseOp? && !s.closed ==> t.references == {} && t.closed)
      && (!op.CloseOp? || s.closed ==> s.references <= t.references && t.closed == s.closed)
      && (s.closed ==> t.references == s.references)
  {
    match op
    case PublishDatasetOp(record, payload) => PublishDatasetBooks(gate, mean, s, env, record, payload);
    case PublishOperationOp(c) => PublishOperationBooks(gate, mean, s, env, c);
    case LoadDatasetOp(r) => LoadDatasetBooks(gate, mean, s, env, r);
    case LoadOperationOp(r) => LoadOperationBooks(gate, mean, s, env, r);
    case CloseOp =>
    case Tamper(_) =>
  }

  lemma {:induction false} NextKeepsRegistry(gate: Gate, mean: Meaning, w: World, a: Act)
    requires Sound(gate, mean) && RegistryInv(w)
    ensures RegistryInv(Next(gate, w, a))
  {
    if a.Do? && a.id in w.sessions {
      StepReferences(gate, mean, w.sessions[a.id], a.env.(outside := KnownOutside(w.holders, a.id)), a.op);
      var v := Next(gate, w, a);
      forall r, id ensures id in HoldersOf(v.holders, r) <==> id in v.sessions && r in v.sessions[id].references {
        assert id in HoldersOf(w.holders, r) <==> id in w.sessions && r in w.sessions[id].references;
      }
    }
  }

  lemma {:induction false} RunHasRegistry(gate: Gate, mean: Meaning, acts: seq<Act>)
    requires Sound(gate, mean)
    ensures RegistryInv(Run(gate, acts))
    decreases |acts|
  {
    if acts != [] {
      RunHasRegistry(gate, mean, acts[..|acts| - 1]);
      NextKeepsRegistry(gate, mean, Run(gate, acts[..|acts| - 1]), acts[|acts| - 1]);
    }
  }

  /** Some other session holds the reference. */
  ghost predicate HeldElsewhere(w: World, id: Text, reference: Reference) {
    exists other :: other in w.sessions && other != id && reference in w.sessions[other].references
  }

  lemma {:induction false} KnownOutsideIff(w: World, id: Text, reference: Reference)
    requires RegistryInv(w)
    ensures reference in KnownOutside(w.holders, id) <==> HeldElsewhere(w, id, reference)
  {
    var others := HoldersOf(w.holders, reference) - {id};
    assert reference in KnownOutside(w.holders, id) <==> others != {};
    if others != {} {
      var other := Pick(others);
      assert other in HoldersOf(w.holders, reference);
      assert other != id && reference in w.sessions[other].references;
    }
    if other :| other in w.sessions && other != id && reference in w.sessions[other].references {
      assert other in HoldersOf(w.holders, reference);
      assert other in others;
    }
  }

  /** In every reachable state of all sessions, a session refuses a reference as out of scope exactly when
      it does not hold the reference itself, nothing else is wrong with it, and another session does. */
  lemma {:induction false} ScopeDeniedIff(gate: Gate, mean: Meaning, acts: seq<Act>, id: Text, env: Env,
                                          reference: Reference)
    requires Sound(gate, mean) && id in Run(gate, acts).sessions
    requires env.outside == KnownOutside(Run(gate, acts).holders, id)
    ensures var w := Run(gate, acts);
      var s := w.sessions[id];
      var denied :=
        !s.closed && reference !in s.corrupt && reference !in s.references && HeldElsewhere(w, id, reference);
      && (LoadDataset(gate, s, env, reference).r == Err(ReferenceScopeDenied)
          <==> denied && reference.kind == DatasetKind)
      && (LoadOperation(gate, s, env, reference).r == Err(ReferenceScopeDenied)
          <==> denied && reference.kind == OperationKind)
  {
    var w := Run(gate, acts);
    RunHasRegistry(gate, mean, acts);
    KnownOutsideIff(w, id, reference);
  }
}
