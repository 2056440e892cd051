/** What a session's end and its cursors mean over whole runs (shared/session_cas.py:710-861). */
module SessionLifetime {
  import opened Foundations
  import opened DataRecords
  import opened CasEntries
  import opened SessionCas
  import opened SessionCasRuns
  import Cursor

  /** Closing ends every reference, at whatever success, and empties the tree exactly when it can be told
      to be the session's own and can be removed; closing again does nothing. */
  lemma {:induction false} CloseOutcome(s: State, env: Env)
    ensures var step := Close(s, env);
      && step.s.closed && step.s.corrupt == s.corrupt && step.s.used == s.used
      && (step.r == Ok(()) <==> s.closed || !env.marked || env.removes)
      && (step.r.Err? ==> step.r.error == PublicationFailed)
      && (s.closed ==> step.s == s)
      && (!s.closed ==>
            && step.s.references == {}
            && step.s.disk == if env.marked && env.removes then map[] else s.disk)
  {
  }

  lemma {:induction false} EndedStays(gate: Gate, h: History, env: Env, op: Op)
    requires h.s.closed && h.s.references == {}
    ensures var t := After(gate, h, env, op);
      && t.s.closed && t.s.references == {} && t.s.used == h.s.used
      && (!op.Tamper? ==> t == h)
  {
  }

  /** A closed session is over: from then on every call but closing answers RECORD_REFERENCE_NOT_FOUND and
      changes nothing. */
  lemma {:induction false} ClosedIsFinal(gate: Gate, mean: Meaning, disk: map<Reference, Entry>, steps: seq<(Env, Op)>,
                                         n: nat, env: Env)
    requires Sound(gate, mean) && n < |steps| && steps[n].1.CloseOp?
    ensures var s := Run(gate, disk, steps).s;
      && s.closed && s.references == {} && s.used == Run(gate, disk, steps[..n]).s.used
      && (forall r :: LoadDataset(gate, s, env, r) == Step(s, Err(ReferenceNotFound)))
      && (forall r :: LoadOperation(gate, s, env, r) == Step(s, Err(ReferenceNotFound)))
      && (forall record, payload ::
            PublishDataset(gate, s, env, record, payload) == Step(s, Err(ReferenceNotFound)))
      && (forall c :: PublishOperation(gate, s, env, c) == Step(s, Err(ReferenceNotFound)))
      && (forall session, r, view, selector, next ::
            EncodeCursor(session, s, env, r, view, selector, next) == Err(ReferenceNotFound))
      && (forall session, token, r, view, selector ::
            DecodeCursor(session, s, token, r, view, selector) == Err(ReferenceNotFound))
  {
    EndedAfterClose(gate, mean, disk, steps, n);
  }

  lemma {:induction false} OpenHoldsOrEnded(gate: Gate, mean: Meaning, disk: map<Reference, Entry>,
                                            steps: seq<(Env, Op)>)
    requires Sound(gate, mean)
    ensures Run(gate, disk, steps).s.closed ==> Run(gate, disk, steps).s.references == {}
  {
    if steps != [] {
      var last := |steps| - 1;
      OpenHoldsOrEnded(gate, mean, disk, steps[..last]);
      var h := Run(gate, disk, steps[..last]);
      if h.s.closed {
        EndedStays(gate, h, steps[last].0, steps[last].1);
      } else if !steps[last].1.CloseOp? {
        StaysOpen(gate, mean, h, steps[last].0, steps[last].1);
      }
    }
  }

  /** Only closing closes. */
  lemma {:induction false} StaysOpen(gate: Gate, mean: Meaning, h: History, env: Env, op: Op)
    requires Sound(gate, mean) && !h.s.closed && !op.CloseOp?
    ensures !After(gate, h, env, op).s.closed && h.s.references <= After(gate, h, env, op).s.references
  {
    match op
    case PublishDatasetOp(record, payload) => PublishDatasetBooks(gate, mean, h.s, env, record, payload);
    case PublishOperationOp(c) => PublishOperationBooks(gate, mean, h.s, env, c);
    case LoadDatasetOp(r) => LoadDatasetBooks(gate, mean, h.s, env, r);
    case LoadOperationOp(r) => LoadOperationBooks(gate, mean, h.s, env, r);
    case CloseOp =>
    case Tamper(_) =>
  }

  lemma {:induction false} EndedAfterClose(gate: Gate, mean: Meaning, disk: map<Reference, Entry>,
                                           steps: seq<(Env, Op)>, n: nat)
    requires Sound(gate, mean) && n < |steps| && steps[n].1.CloseOp?
    ensures var s := Run(gate, disk, steps).s;
      s.closed && s.references == {} && s.used == Run(gate, disk, steps[..n]).s.used
    decreases |steps|
  {
    var last := |steps| - 1;
    if n == last {
      OpenHoldsOrEnded(gate, mean, disk, steps[..last]);
    } else {
      assert steps[..last][..n] == steps[..n];
      EndedAfterClose(gate, mean, disk, steps[..last], n);
      EndedStays(gate, Run(gate, disk, steps[..last]), steps[last].0, steps[last].1);
    }
  }

  /** While a session is open it forgets no reference. */
  lemma {:induction false} OpenKeepsReferences(gate: Gate, mean: Meaning, disk: map<Reference, Entry>,
                                               steps: seq<(Env, Op)>, n: nat)
    requires Sound(gate, mean) && n <= |steps| && !Run(gate, disk, steps).s.closed
    ensures !Run(gate, disk, steps[..n]).s.closed
    ensures Run(gate, disk, steps[..n]).s.references <= Run(gate, disk, steps).s.references
    decreases |steps|
  {
    if n == |steps| {
      assert steps[..n] == steps;
    } else {
      var last := |steps| - 1;
      var h := Run(gate, disk, steps[..last]);
      if h.s.closed {
        OpenHoldsOrEnded(gate, mean, disk, steps[..last]);
        EndedStays(gate, h, steps[last].0, steps[last].1);
      }
      StaysOpen(gate, mean, h, steps[last].0, steps[last].1);
      assert steps[..last][..n] == steps[..n];
      OpenKeepsReferences(gate, mean, disk, steps[..last], n);
    }
  }

  /** A cursor given out at any time leads back to its index for as long as the session is open and its
      record has not been found corrupt, whatever happens in between; under another reference, view or
      selector it is refused. */
  lemma {:induction false} CursorResumes(gate: Gate, mean: Meaning, disk: map<Reference, Entry>,
                                         steps: seq<(Env, Op)>, n: nat, session: Cursor.Session, env: Env,
                                         reference: Reference, view: Text, selector: Option<Text>, next: int,
                                         token: Text)
    requires Sound(gate, mean) && Cursor.SessionOk(session) && n <= |steps|
    requires EncodeCursor(session, Run(gate, disk, steps[..n]).s, env, reference, view, selector, next) == Ok(token)
    ensures next >= 0
    ensures var s := Run(gate, disk, steps).s;
      DecodeCursor(session, s, token, reference, view, selector)
      == if s.closed then Err(ReferenceNotFound)
         else if reference in s.corrupt then Err(InvalidToolRequest) else Ok(next)
    ensures forall r, v, x :: (r, v, x) != (reference, view, selector)
                              && (Cursor.ValidSelector(x) ==> Cursor.SelectorsDoNotCollide(session, selector, x)) ==>
              DecodeCursor(session, Run(gate, disk, steps).s, token, r, v, x).Err?
  {
    var s := Run(gate, disk, steps).s;
    if !s.closed {
      OpenKeepsReferences(gate, mean, disk, steps, n);
    }
    TokenIsBound(session, token, next, reference, view, selector);
  }

  lemma {:induction false} TokenIsBound(session: Cursor.Session, token: Text, next: int, reference: Reference,
                                        view: Text, selector: Option<Text>)
    requires Cursor.SessionOk(session)
    requires Cursor.EncodeToken(session, ReferenceText(reference), view, selector, next) == Some(token)
    ensures Cursor.DecodeToken(session, token, ReferenceText(reference), view, selector) == Some(next)
    ensures forall r, v, x :: (r, v, x) != (reference, view, selector)
                              && (Cursor.ValidSelector(x) ==> Cursor.SelectorsDoNotCollide(session, selector, x)) ==>
              Cursor.DecodeToken(session, token, ReferenceText(r), v, x) == None
  {
    Cursor.CursorBindsItsArguments(session, token, next, ReferenceText(reference), view, selector,
                                   ReferenceText(reference), view, selector);
    forall r, v, x | (r, v, x) != (reference, view, selector)
                     && (Cursor.ValidSelector(x) ==> Cursor.SelectorsDoNotCollide(session, selector, x))
      ensures Cursor.DecodeToken(session, token, ReferenceText(r), v, x) == None
    {
      if ReferenceText(r) == ReferenceText(reference) {
        ReferenceTextIsInjective(r, reference);
      }
      Cursor.CursorBindsItsArguments(session, token, next, ReferenceText(reference), view, selector,
                                     ReferenceText(r), v, x);
    }
  }
}
